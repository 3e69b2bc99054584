/** The retention control loop over a version store whose listing and deletes may fail. */
module Retain {
  import opened Options
  import opened Sorting
  import opened Retention

  /** The versions of the first `n` entries of a plan. */
  function Firsts(plan: seq<VersionMeta>, n: nat): (vs: seq<Version>)
    requires n <= |plan|
    ensures |vs| == n && forall i :: 0 <= i < n ==> vs[i] == plan[i].version
  {
    if n == 0 then [] else Firsts(plan, n - 1) + [plan[n - 1].version]
  }

  function Refs(ms: seq<VersionMeta>): set<string> {
    set m | m in ms :: m.version.ref
  }

  function Outside(gone: set<string>): VersionMeta -> bool {
    (m: VersionMeta) => m.version.ref !in gone
  }

  /** The listing after the handles in `gone` are deleted. */
  function Without(held: seq<VersionMeta>, gone: set<string>): seq<VersionMeta> {
    if held == [] then []
    else
      var rest, m := Without(held[..|held| - 1], gone), held[|held| - 1];
      if m.version.ref in gone then rest else rest + [m]
  }

  lemma {:induction false} WithoutIsFilter(held: seq<VersionMeta>, gone: set<string>)
    ensures Without(held, gone) == Filter(held, Outside(gone))
  {
    if held != [] {
      WithoutIsFilter(held[..|held| - 1], gone);
    }
  }

  /** Every version is held once and its handle is its own. */
  predicate DistinctRefs(held: seq<VersionMeta>) { |Refs(held)| == |held| }

  /** The listing after the first `n` entries of a plan are deleted, one at a time. */
  function After(held: seq<VersionMeta>, plan: seq<VersionMeta>, n: nat): seq<VersionMeta>
    requires n <= |plan|
  {
    if n == 0 then held else Without(After(held, plan, n - 1), {plan[n - 1].version.ref})
  }

  /** What the environment does to one tick: whether listing fails, and which delete is the first to
      fail (a tick makes no further one). */
  datatype Faults = Faults(listFails: bool, firstFailure: Option<nat>)

  const CLEAN: Faults := Faults(false, None)

  /** The faults of tick `i`; ticks past the end of the script are clean. */
  function At(faults: seq<Faults>, i: nat): Faults {
    if i < |faults| then faults[i] else CLEAN
  }

  predicate DeleteFails(f: Faults, j: nat) { f.firstFailure == Some(j) }

  /** How many of `n` attempted deletes happen. */
  function Deleted(f: Faults, n: nat): (k: nat)
    ensures k <= n
  {
    if f.firstFailure.Some? && f.firstFailure.value < n then f.firstFailure.value else n
  }

  class VersionStore {
    var held: seq<VersionMeta>

    constructor (held: seq<VersionMeta>)
      ensures this.held == held
    {
      this.held := held;
    }

    method List(fails: bool) returns (r: Option<seq<VersionMeta>>)
      ensures r == if fails then None else Some(held)
    {
      r := if fails then None else Some(held);
    }

    method Prune(v: Version, fails: bool) returns (ok: bool)
      modifies this
      ensures ok == !fails
      ensures held == if fails then old(held) else Without(old(held), {v.ref})
    {
      if fails {
        return false;
      }
      held := Without(held, {v.ref});
      return true;
    }
  }

  lemma NoneDone(held: seq<VersionMeta>, plan: seq<VersionMeta>)
    ensures After(held, plan, 0) == held && Firsts(plan, 0) == []
  {
  }

  lemma NextDone(held: seq<VersionMeta>, plan: seq<VersionMeta>, i: nat)
    requires i < |plan|
    ensures After(held, plan, i + 1) == Without(After(held, plan, i), {plan[i].version.ref})
    ensures Firsts(plan, i + 1) == Firsts(plan, i) + [plan[i].version]
  {
  }

  /** Deletes the plan in order and stops at the first delete that fails. */
  method Apply(store: VersionStore, plan: seq<VersionMeta>, f: Faults) returns (done: seq<Version>, ok: bool)
    modifies store
    ensures var k := Deleted(f, |plan|);
            && done == Firsts(plan, k)
            && ok == (k == |plan|)
            && store.held == After(old(store.held), plan, k)
  {
    hide Firsts, After, Without;
    done := [];
    ghost var start := store.held;
    NoneDone(start, plan);
    for i := 0 to |plan|
      invariant done == Firsts(plan, i)
      invariant f.firstFailure.Some? ==> i <= f.firstFailure.value
      invariant store.held == After(start, plan, i)
    {
      var v := plan[i].version;
      NextDone(start, plan, i);
      var deleted := store.Prune(v, DeleteFails(f, i));
      if !deleted {
        return done, false;
      }
      done := done + [v];
    }
    return done, true;
  }

  /** At most `max` of the prune set when `max` is positive. */
  function Bounded(prune: seq<VersionMeta>, max: int): (r: seq<VersionMeta>)
    ensures r <= prune
    ensures max > 0 ==> |r| <= max
  {
    if max > 0 && |prune| > max then prune[..max] else prune
  }

  datatype Ticked = Ticked(held: seq<VersionMeta>, pruned: seq<Version>, failed: bool)

  function TickStep(p: Policy, max: int, held: seq<VersionMeta>, now: int, f: Faults): Ticked {
    if f.listFails then Ticked(held, [], true)
    else
      var plan := Bounded(PlanSplit(p, held, now).prune, max);
      var k := Deleted(f, |plan|);
      Ticked(After(held, plan, k), Firsts(plan, k), k < |plan|)
  }

  datatype Outcome = Converged | TickFailed | OutOfTicks

  /** Deletions one tick attempts when `p` versions are left to prune. */
  function TickSize(p: nat, max: int): (n: nat)
    ensures n <= p && (n == 0 <==> p == 0)
  {
    if max > 0 && p > max then max else p
  }

  /** The loop seen only as counts of deletions. */
  datatype Trace = Trace(returned: nat, lost: nat, outcome: Outcome)

  function Advanced(k: nat, t: Trace): Trace { t.(returned := k + t.returned) }

  function TraceFrom(p: nat, max: int, maxTicks: int, faults: seq<Faults>, i: nat): (t: Trace)
    ensures t.returned + t.lost <= p
    ensures t.lost > 0 ==> t.outcome == TickFailed
    ensures t.outcome == Converged ==> t.returned == p
    decreases maxTicks - i
  {
    if i >= maxTicks then Trace(0, 0, OutOfTicks)
    else if At(faults, i).listFails then Trace(0, 0, TickFailed)
    else
      var k := Deleted(At(faults, i), TickSize(p, max));
      if k < TickSize(p, max) then Trace(0, k, TickFailed)
      else if k == 0 then Trace(0, 0, Converged)
      else
        Advanced(k, TraceFrom(p - k, max, maxTicks, faults, i + 1))
  }

  class Retainer {
    const store: VersionStore
    const policy: Policy
    const maxPrunePerTick: int

    constructor (store: VersionStore, policy: Policy, maxPrunePerTick: int)
      ensures this.store == store && this.policy == policy && this.maxPrunePerTick == maxPrunePerTick
    {
      this.store, this.policy, this.maxPrunePerTick := store, policy, maxPrunePerTick;
    }

    method Tick(now: int, f: Faults) returns (pruned: seq<Version>, ok: bool)
      modifies store
      ensures var t := TickStep(policy, maxPrunePerTick, old(store.held), now, f);
              store.held == t.held && pruned == t.pruned && ok == !t.failed
    {
      var vs := store.List(f.listFails);
      if vs.None? {
        return [], false;
      }
      var _, prune := Plan(policy, vs.value, now);
      if maxPrunePerTick > 0 && |prune| > maxPrunePerTick {
        prune := prune[..maxPrunePerTick];
      }
      pruned, ok := Apply(store, prune, f);
    }

    /** Runs ticks until one prunes nothing, one fails, or `maxTicks` are spent. What is deleted,
        whatever fails, is a prefix of the plan made at the start; a caller is told all of it except
        the partial deletions of a failing tick. */
    method Converge(now: int, maxTicks: int, faults: seq<Faults>) returns (all: seq<Version>, outcome: Outcome)
      requires DistinctRefs(store.held)
      modifies store
      ensures var prune := PlanSplit(policy, old(store.held), now).prune;
              var t := TraceFrom(|prune|, maxPrunePerTick, maxTicks, faults, 0);
              && all == Firsts(prune, t.returned)
              && outcome == t.outcome
              && store.held == After(old(store.held), prune, t.returned + t.lost)
    {
      hide *;
      all := [];
      ghost var start := store.held;
      ghost var prune := PlanSplit(policy, start, now).prune;
      ghost var n := 0;
      LoopStart(start, prune, maxPrunePerTick, maxTicks, faults);
      var i := 0;
      while i < maxTicks
        invariant 0 <= i
        invariant 0 <= n <= |prune|
        invariant store.held == After(start, prune, n)
        invariant all == Firsts(prune, n)
        invariant TraceFrom(|prune|, maxPrunePerTick, maxTicks, faults, 0)
               == Advanced(n, TraceFrom(|prune| - n, maxPrunePerTick, maxTicks, faults, i))
      {
        ghost var k := Attempted(|prune| - n, maxPrunePerTick, At(faults, i));
        ghost var t := TickStep(policy, maxPrunePerTick, store.held, now, At(faults, i));
        LoopTick(policy, maxPrunePerTick, now, start, prune, n, At(faults, i), k, t);
        TraceTick(|prune|, n, maxPrunePerTick, maxTicks, faults, i, k);
        var pruned, ok := Tick(now, At(faults, i));
        if !ok {
          return all, TickFailed;
        }
        all := all + pruned;
        n := n + k;
        if |pruned| == 0 {
          return all, Converged;
        }
        i := i + 1;
      }
      OutOfTime(|prune| - n, maxPrunePerTick, maxTicks, faults, i, n);
      return all, OutOfTicks;
    }
  }

  // ---------- one tick ----------

  lemma RefsSnoc(s: seq<VersionMeta>)
    requires s != []
    ensures Refs(s) == Refs(s[..|s| - 1]) + {s[|s| - 1].version.ref}
  {
    var n := |s| - 1;
    assert s == s[..n] + [s[n]];
  }

  lemma {:induction false} RefsAtMost(s: seq<VersionMeta>)
    ensures |Refs(s)| <= |s|
  {
    if s != [] {
      RefsSnoc(s);
      RefsAtMost(s[..|s| - 1]);
    }
  }

  lemma DistinctSnoc(s: seq<VersionMeta>)
    requires s != []
    ensures DistinctRefs(s) <==> DistinctRefs(s[..|s| - 1]) && s[|s| - 1].version.ref !in Refs(s[..|s| - 1])
  {
    RefsSnoc(s);
    RefsAtMost(s[..|s| - 1]);
  }

  lemma {:induction false} DistinctElements(s: seq<VersionMeta>, i: nat, j: nat)
    requires DistinctRefs(s) && i < j < |s|
    ensures s[i].version.ref != s[j].version.ref
  {
    var n := |s| - 1;
    DistinctSnoc(s);
    assert s[..n][i] == s[i];
    if j < n {
      DistinctElements(s[..n], i, j);
    } else {
      assert s[i] in s[..n];
    }
  }

  lemma DistinctPermutes(s: seq<VersionMeta>, t: seq<VersionMeta>)
    requires DistinctRefs(s) && multiset(t) == multiset(s)
    ensures DistinctRefs(t)
  {
    forall m
      ensures m in t <==> m in s
    {
      assert m in multiset(t) <==> m in multiset(s);
    }
    assert Refs(t) == Refs(s);
    assert |s| == |multiset(s)| == |multiset(t)| == |t|;
  }

  lemma {:induction false} DistinctFilter(s: seq<VersionMeta>, p: VersionMeta -> bool)
    requires DistinctRefs(s)
    ensures DistinctRefs(Filter(s, p))
  {
    if s == [] {
      assert Refs(s) == {};
    } else {
      var n := |s| - 1;
      DistinctSnoc(s);
      DistinctFilter(s[..n], p);
      if p(s[n]) {
        var f := Filter(s, p);
        FilterMembers(s[..n], p);
        assert f[..|f| - 1] == Filter(s[..n], p);
        DistinctSnoc(f);
      }
    }
  }

  lemma RefsSeparate(front: seq<VersionMeta>, gone: seq<VersionMeta>, left: seq<VersionMeta>)
    requires DistinctRefs(front + gone + left)
    ensures forall v :: v in front ==> v.version.ref !in Refs(gone)
    ensures forall v :: v in left ==> v.version.ref !in Refs(gone)
  {
    var s, c, k := front + gone + left, |front|, |gone|;
    forall v, m | v in front && m in gone
      ensures v.version.ref != m.version.ref
    {
      var i :| 0 <= i < c && front[i] == v;
      var j :| 0 <= j < k && gone[j] == m;
      assert s[i] == v && s[c + j] == m;
      DistinctElements(s, i, c + j);
    }
    forall v, m | v in left && m in gone
      ensures v.version.ref != m.version.ref
    {
      var i :| 0 <= i < |left| && left[i] == v;
      var j :| 0 <= j < k && gone[j] == m;
      assert s[c + k + i] == v && s[c + j] == m;
      DistinctElements(s, c + j, c + k + i);
    }
  }

  lemma SortedParts(p: Policy, held: seq<VersionMeta>, now: int, k: nat)
    requires DistinctRefs(held) && k <= |PlanSplit(p, held, now).prune|
    ensures var plan := PlanSplit(p, held, now);
            && DistinctRefs(plan.keep + plan.prune[..k] + plan.prune[k..])
            && multiset(held) == multiset(plan.keep + plan.prune[k..]) + multiset(plan.prune[..k])
  {
    var plan := PlanSplit(p, held, now);
    var s := StableSort(held, Newer);
    SortPermutes(held, Newer);
    DistinctPermutes(held, s);
    TakeDrop(plan.prune, k);
    TakeDrop(s, |plan.keep|);
    Associates(plan.keep, plan.prune[..k], plan.prune[k..]);
  }

  /** One at a time or all at once, the same handles are gone. */
  lemma {:induction false} AfterIsFilter(held: seq<VersionMeta>, plan: seq<VersionMeta>, n: nat)
    requires n <= |plan|
    ensures After(held, plan, n) == Filter(held, Outside(Refs(plan[..n])))
  {
    hide Filter, Without, Refs, Outside;
    if n == 0 {
      NothingGone(plan[..0]);
      AllOutside(held, {});
      FilterAll(held, Outside({}));
    } else {
      var gone, last := Refs(plan[..n - 1]), {plan[n - 1].version.ref};
      AfterIsFilter(held, plan, n - 1);
      WithoutIsFilter(After(held, plan, n - 1), last);
      assert plan[..n][..n - 1] == plan[..n - 1];
      RefsSnoc(plan[..n]);
      OutsideBoth(gone, last);
      FilterTwice(held, Outside(gone), Outside(last), Outside(gone + last));
    }
  }

  lemma NothingGone(ms: seq<VersionMeta>)
    requires ms == []
    ensures Refs(ms) == {}
  {
  }

  lemma OutsideBoth(a: set<string>, b: set<string>)
    ensures forall m :: Outside(a + b)(m) <==> Outside(a)(m) && Outside(b)(m)
  {
  }

  lemma AllOutside(ms: seq<VersionMeta>, gone: set<string>)
    requires forall v :: v in ms ==> v.version.ref !in gone
    ensures forall v :: v in ms ==> Outside(gone)(v)
  {
  }

  lemma NoneOutside(ms: seq<VersionMeta>)
    ensures forall v :: v in ms ==> !Outside(Refs(ms))(v)
  {
  }

  /** Of what is deleted nothing stays, and of the rest everything. */
  lemma OthersStay(gone: seq<VersionMeta>, left: seq<VersionMeta>)
    requires forall v :: v in left ==> v.version.ref !in Refs(gone)
    ensures Filter(gone + left, Outside(Refs(gone))) == left
  {
    hide *;
    var stays := Outside(Refs(gone));
    AllOutside(left, Refs(gone));
    NoneOutside(gone);
    FilterConcat(gone, left, stays);
    FilterNone(gone, stays);
    FilterAll(left, stays);
    EmptyUnit(left);
  }

  /** Deleting the first `k` versions of the prune set leaves exactly the rest of the plan. */
  lemma PrunedPrefix(p: Policy, held: seq<VersionMeta>, now: int, k: nat)
    requires DistinctRefs(held) && k <= |PlanSplit(p, held, now).prune|
    ensures var plan := PlanSplit(p, held, now);
            var after := After(held, plan.prune, k);
            PlanSplit(p, after, now) == Split(plan.keep, plan.prune[k..]) && DistinctRefs(after)
  {
    hide *;
    var plan := PlanSplit(p, held, now);
    var gone, left := plan.prune[..k], plan.prune[k..];
    var stays := Outside(Refs(gone));
    SortedParts(p, held, now, k);
    RefsSeparate(plan.keep, gone, left);
    AllOutside(plan.keep, Refs(gone));
    PlanAfterPruning(p, held, now, stays);
    TakeDrop(plan.prune, k);
    OthersStay(gone, left);
    DistinctFilter(held, stays);
    AfterIsFilter(held, plan.prune, k);
  }

  /** Nothing is lost: what was held is what is left plus what was deleted. */
  lemma PrunedConserves(p: Policy, held: seq<VersionMeta>, now: int, k: nat)
    requires DistinctRefs(held) && k <= |PlanSplit(p, held, now).prune|
    ensures var plan := PlanSplit(p, held, now);
            var after := After(held, plan.prune, k);
            && multiset(after) == multiset(plan.keep + plan.prune[k..])
            && multiset(held) == multiset(after) + multiset(plan.prune[..k])
  {
    var plan := PlanSplit(p, held, now);
    SortedParts(p, held, now, k);
    PrunedPrefix(p, held, now, k);
    PlanPermutes(p, After(held, plan.prune, k), now);
  }

  lemma PlanPermutes(p: Policy, held: seq<VersionMeta>, now: int)
    ensures multiset(held) == multiset(PlanSplit(p, held, now).keep + PlanSplit(p, held, now).prune)
  {
    SortPermutes(held, Newer);
    var plan := PlanSplit(p, held, now);
    TakeDrop(StableSort(held, Newer), |plan.keep|);
  }

  lemma KeepSurvives(p: Policy, held: seq<VersionMeta>, now: int, k: nat)
    requires DistinctRefs(held) && k <= |PlanSplit(p, held, now).prune|
    ensures var plan := PlanSplit(p, held, now);
            forall v :: v in plan.keep ==> v in After(held, plan.prune, k)
  {
    var plan := PlanSplit(p, held, now);
    PrunedConserves(p, held, now, k);
    forall v | v in plan.keep
      ensures v in After(held, plan.prune, k)
    {
      assert v in plan.keep + plan.prune[k..];
      assert v in multiset(After(held, plan.prune, k));
    }
  }

  /** Deletions one tick makes when `p` versions are left to prune. */
  function Attempted(p: nat, max: int, f: Faults): (k: nat)
    ensures k <= TickSize(p, max)
    ensures max > 0 ==> k <= max
  {
    if f.listFails then 0 else Deleted(f, TickSize(p, max))
  }

  lemma {:induction false} PrefixSame(held: seq<VersionMeta>, a: seq<VersionMeta>, b: seq<VersionMeta>, k: nat)
    requires k <= |a| && k <= |b| && forall j :: 0 <= j < k ==> a[j] == b[j]
    ensures Firsts(a, k) == Firsts(b, k) && After(held, a, k) == After(held, b, k)
  {
    if k > 0 {
      PrefixSame(held, a, b, k - 1);
    }
  }

  lemma TickStepIs(p: Policy, max: int, held: seq<VersionMeta>, now: int, f: Faults)
    ensures var prune := PlanSplit(p, held, now).prune;
            var k := Attempted(|prune|, max, f);
            TickStep(p, max, held, now, f)
            == Ticked(After(held, prune, k), Firsts(prune, k), f.listFails || k < TickSize(|prune|, max))
  {
    var prune := PlanSplit(p, held, now).prune;
    PrefixSame(held, prune, Bounded(prune, max), Attempted(|prune|, max, f));
  }

  /** One tick under any failure pattern: what was held is what is held plus what is returned, the
      returned versions are a bounded prefix of the plan's prune sequence, nothing in the keep set is
      touched, the rest of the plan stands, and a tick that does not fail deletes the whole prefix. */
  lemma TickConserves(p: Policy, max: int, held: seq<VersionMeta>, now: int, f: Faults) returns (k: nat)
    requires DistinctRefs(held)
    ensures k <= |PlanSplit(p, held, now).prune| && (max > 0 ==> k <= max)
    ensures var n := |PlanSplit(p, held, now).prune|;
            var size := if max > 0 && n > max then max else n;
            k == if f.listFails then 0 else if f.firstFailure.Some? && f.firstFailure.value < size then f.firstFailure.value else size
    ensures var plan := PlanSplit(p, held, now);
            var t := TickStep(p, max, held, now, f);
            && t.pruned == Firsts(plan.prune, k)
            && multiset(held) == multiset(t.held) + multiset(plan.prune[..k])
            && (forall v :: v in plan.keep ==> v in t.held)
            && PlanSplit(p, t.held, now) == Split(plan.keep, plan.prune[k..])
            && (f.listFails ==> t.failed && k == 0)
            && (!f.listFails ==> (t.failed <==> k < TickSize(|plan.prune|, max)))
  {
    k := Attempted(|PlanSplit(p, held, now).prune|, max, f);
    TickStepIs(p, max, held, now, f);
    PrunedPrefix(p, held, now, k);
    PrunedConserves(p, held, now, k);
    KeepSurvives(p, held, now, k);
  }

  // ---------- the whole loop ----------

  lemma {:induction false} DeletionsJoin(held: seq<VersionMeta>, prune: seq<VersionMeta>, n: nat, k: nat)
    requires n + k <= |prune|
    ensures Firsts(prune, n) + Firsts(prune[n..], k) == Firsts(prune, n + k)
    ensures After(After(held, prune, n), prune[n..], k) == After(held, prune, n + k)
  {
    hide Without;
    if k > 0 {
      DeletionsJoin(held, prune, n, k - 1);
      assert prune[n..][k - 1] == prune[n + k - 1];
    }
  }

  lemma LoopStart(start: seq<VersionMeta>, prune: seq<VersionMeta>, max: int, maxTicks: int, faults: seq<Faults>)
    ensures After(start, prune, 0) == start && Firsts(prune, 0) == []
    ensures var t := TraceFrom(|prune|, max, maxTicks, faults, 0);
            t == Advanced(0, t)
  {
  }

  lemma OutOfTime(p: nat, max: int, maxTicks: int, faults: seq<Faults>, i: nat, n: nat)
    requires maxTicks <= i
    ensures Advanced(n, TraceFrom(p, max, maxTicks, faults, i)) == Trace(n, 0, OutOfTicks)
  {
  }

  /** One tick of the counted loop. */
  lemma TraceTick(p: nat, n: nat, max: int, maxTicks: int, faults: seq<Faults>, i: nat, k: nat)
    requires n <= p && i < maxTicks && k == Attempted(p - n, max, At(faults, i))
    ensures Advanced(n, TraceFrom(p - n, max, maxTicks, faults, i))
            == if At(faults, i).listFails || k < TickSize(p - n, max) then Trace(n, k, TickFailed)
               else if k == 0 then Trace(n, 0, Converged)
               else Advanced(n + k, TraceFrom(p - n - k, max, maxTicks, faults, i + 1))
  {
  }

  lemma RestOfPlan(p: Policy, now: int, start: seq<VersionMeta>, prune: seq<VersionMeta>, n: nat)
    requires DistinctRefs(start) && prune == PlanSplit(p, start, now).prune && n <= |prune|
    ensures PlanSplit(p, After(start, prune, n), now).prune == prune[n..]
  {
    PrunedPrefix(p, start, now, n);
  }

  lemma TickOnRest(p: Policy, max: int, now: int, start: seq<VersionMeta>, prune: seq<VersionMeta>, n: nat, f: Faults, k: nat)
    requires n <= |prune| && PlanSplit(p, After(start, prune, n), now).prune == prune[n..]
    requires k == Attempted(|prune| - n, max, f)
    ensures TickStep(p, max, After(start, prune, n), now, f)
         == Ticked(After(start, prune, n + k), Firsts(prune[n..], k), f.listFails || k < TickSize(|prune| - n, max))
  {
    TickStepIs(p, max, After(start, prune, n), now, f);
    DeletionsJoin(start, prune, n, k);
  }

  /** A tick on what is left of `start` after the first `n` deletions of its plan makes the next ones. */
  lemma LoopTick(p: Policy, max: int, now: int, start: seq<VersionMeta>, prune: seq<VersionMeta>, n: nat, f: Faults,
                 k: nat, t: Ticked)
    requires DistinctRefs(start) && prune == PlanSplit(p, start, now).prune && n <= |prune|
    requires k == Attempted(|prune| - n, max, f)
    requires t == TickStep(p, max, After(start, prune, n), now, f)
    ensures t.held == After(start, prune, n + k)
    ensures |t.pruned| == k && Firsts(prune, n) + t.pruned == Firsts(prune, n + k)
    ensures t.failed == (f.listFails || k < TickSize(|prune| - n, max))
  {
    RestOfPlan(p, now, start, prune, n);
    TickOnRest(p, max, now, start, prune, n, f, k);
    DeletionsJoin(start, prune, n, k);
  }

  // ---------- the convergence bound ----------

  predicate NoFaults(faults: seq<Faults>) {
    forall i :: 0 <= i < |faults| ==> faults[i] == CLEAN
  }

  /** Ticks a fault-free loop needs to delete `p` versions. */
  function TicksNeeded(p: nat, max: int): nat {
    if p == 0 then 0 else 1 + TicksNeeded(p - TickSize(p, max), max)
  }

  /** Versions a fault-free loop deletes in `t` ticks. */
  function Reached(p: nat, max: int, t: int): (n: nat)
    ensures n <= p
    decreases p
  {
    if t <= 0 || p == 0 then 0 else TickSize(p, max) + Reached(p - TickSize(p, max), max, t - 1)
  }

  lemma {:induction false} FaultFreeTrace(p: nat, max: int, maxTicks: int, faults: seq<Faults>, i: nat)
    requires NoFaults(faults)
    ensures TraceFrom(p, max, maxTicks, faults, i)
         == Trace(Reached(p, max, maxTicks - i), 0,
                  if maxTicks - i > TicksNeeded(p, max) then Converged else OutOfTicks)
    decreases maxTicks - i
  {
    if i < maxTicks {
      var k := Deleted(At(faults, i), TickSize(p, max));
      if k > 0 {
        FaultFreeTrace(p - k, max, maxTicks, faults, i + 1);
      }
    }
  }

  lemma DivUnique(x: nat, m: nat, q: int)
    requires m > 0 && q * m <= x < q * m + m
    ensures x / m == q
  {
    var d, r := x / m, x % m;
    assert x == d * m + r;
    assert d < q ==> (d + 1) * m <= q * m;
    assert q < d ==> (q + 1) * m <= d * m;
  }

  lemma DivStep(x: nat, m: nat)
    requires m > 0
    ensures (x + m) / m == x / m + 1
  {
    var q := x / m;
    assert x == q * m + x % m;
    assert (q + 1) * m == q * m + m;
    DivUnique(x + m, m, q + 1);
  }

  lemma SmallDiv(x: nat, m: nat)
    requires x < m
    ensures x / m == 0
  {
  }

  lemma {:induction false} TicksAreCeiling(p: nat, max: nat)
    requires max > 0
    ensures TicksNeeded(p, max) == (p + max - 1) / max
    decreases p
  {
    if p == 0 {
      SmallDiv(max - 1, max);
    } else {
      DivStep(p - 1, max);
      if p > max {
        TicksAreCeiling(p - max, max);
      } else {
        SmallDiv(p - 1, max);
        assert TicksNeeded(p, max) == 1 + TicksNeeded(0, max);
      }
    }
  }

  lemma {:induction false} ReachedIsBound(p: nat, max: int, t: int)
    requires t >= 0
    ensures Reached(p, max, t) == if max > 0 then (if p < t * max then p else t * max) else if t > 0 then p else 0
    decreases p
  {
    if t > 0 && p > 0 {
      ReachedIsBound(p - TickSize(p, max), max, t - 1);
      assert t * max == (t - 1) * max + max;
      if max > 0 {
        assert (t - 1) * max >= 0;
      }
    } else if max > 0 && t > 0 {
      assert t * max > 0;
    }
  }

  /** The loop's bound, exactly: with no faults it converges iff it is given more than
      ceil(p / max) ticks for a plan of `p` deletions (one more than one tick when unbounded and there
      is something to prune), and has then made all of them; otherwise it has made the first
      maxTicks * max of them. It never loses one. */
  lemma ConvergesExactly(p: nat, max: int, maxTicks: int, faults: seq<Faults>)
    requires NoFaults(faults)
    ensures var t := TraceFrom(p, max, maxTicks, faults, 0);
            var needed := if max > 0 then (p + max - 1) / max else if p > 0 then 1 else 0;
            && t.lost == 0
            && t.outcome == (if maxTicks > needed then Converged else OutOfTicks)
            && (t.outcome == Converged ==> t.returned == p)
            && (0 <= maxTicks && max > 0 ==> t.returned == if p < maxTicks * max then p else maxTicks * max)
  {
    FaultFreeTrace(p, max, maxTicks, faults, 0);
    if max > 0 {
      TicksAreCeiling(p, max);
    } else if p > 0 {
      assert TicksNeeded(p, max) == 1 + TicksNeeded(0, max);
    }
    if maxTicks >= 0 {
      ReachedIsBound(p, max, maxTicks);
    }
  }

  /** Wherever the loop stops, nothing it did not delete is gone; driven through the whole plan, the
      store holds exactly the plan's keep set and another plan at the same time prunes nothing. */
  lemma LoopConserves(p: Policy, now: int, start: seq<VersionMeta>, n: nat)
    requires DistinctRefs(start) && n <= |PlanSplit(p, start, now).prune|
    ensures var plan := PlanSplit(p, start, now);
            var held := After(start, plan.prune, n);
            && multiset(start) == multiset(held) + multiset(plan.prune[..n])
            && PlanSplit(p, held, now) == Split(plan.keep, plan.prune[n..])
            && (n == |plan.prune| ==> multiset(held) == multiset(plan.keep))
  {
    var plan := PlanSplit(p, start, now);
    TakeDrop(plan.prune, n);
    EmptyUnit(plan.keep);
    PrunedPrefix(p, start, now, n);
    PrunedConserves(p, start, now, n);
  }

  /** A tick that attempts `n` deletes makes all of them. */
  predicate Completes(f: Faults, n: nat) {
    !f.listFails && (f.firstFailure.Some? ==> f.firstFailure.value >= n)
  }

  /** A tick that attempts `n` deletes makes some of them and then fails. */
  predicate BreaksOff(f: Faults, n: nat) {
    !f.listFails && f.firstFailure.Some? && 0 < f.firstFailure.value < n
  }

  /** Deletes the tick `t` ticks on attempts, if the ticks before it complete. */
  function Attempts(p: nat, max: int, t: nat): nat { TickSize(p - Reached(p, max, t), max) }

  /** Tick `i + t` breaks off and the ticks from `i` up to it complete. */
  predicate PartWay(p: nat, max: int, faults: seq<Faults>, i: nat, t: nat) {
    && (forall s :: 0 <= s < t ==> Completes(At(faults, i + s), Attempts(p, max, s)))
    && BreaksOff(At(faults, i + t), Attempts(p, max, t))
  }

  lemma AttemptsShift(p: nat, max: int, t: nat)
    requires p > 0
    ensures Attempts(p, max, t + 1) == Attempts(p - TickSize(p, max), max, t)
  {
  }

  lemma NoneLeft(max: int, t: nat)
    ensures Attempts(0, max, t) == 0
  {
  }

  /** One tick on, the same tick breaks off. */
  lemma PartWayShift(p: nat, max: int, faults: seq<Faults>, i: nat, t: nat)
    requires p > 0 && Completes(At(faults, i), TickSize(p, max))
    ensures PartWay(p, max, faults, i, t + 1) <==> PartWay(p - TickSize(p, max), max, faults, i + 1, t)
  {
    hide Attempts, Completes, BreaksOff, TickSize;
    var q := p - TickSize(p, max);
    AttemptsShift(p, max, t);
    forall s: nat
      ensures Attempts(p, max, s + 1) == Attempts(q, max, s)
    {
      AttemptsShift(p, max, s);
    }
    AttemptsStart(p, max);
    if PartWay(p, max, faults, i, t + 1) {
      forall s | 0 <= s < t
        ensures Completes(At(faults, i + 1 + s), Attempts(q, max, s))
      {
        assert Completes(At(faults, i + (s + 1)), Attempts(p, max, s + 1));
      }
    }
    if PartWay(q, max, faults, i + 1, t) {
      forall s | 0 <= s < t + 1
        ensures Completes(At(faults, i + s), Attempts(p, max, s))
      {
        if s > 0 {
          assert Completes(At(faults, i + 1 + (s - 1)), Attempts(q, max, s - 1));
        }
      }
    }
  }

  lemma AttemptsStart(p: nat, max: int)
    ensures Attempts(p, max, 0) == TickSize(p, max)
  {
  }

  /** Some tick the loop has time for breaks off after complete ones. */
  ghost predicate SomeBreakOff(p: nat, max: int, maxTicks: int, faults: seq<Faults>, i: nat) {
    exists t: nat :: t < maxTicks - i && PartWay(p, max, faults, i, t)
  }

  lemma SomeBreakOffShift(p: nat, max: int, maxTicks: int, faults: seq<Faults>, i: nat)
    requires p > 0 && i < maxTicks && Completes(At(faults, i), TickSize(p, max))
    ensures SomeBreakOff(p, max, maxTicks, faults, i) <==> SomeBreakOff(p - TickSize(p, max), max, maxTicks, faults, i + 1)
  {
    hide PartWay, TickSize;
    var q := p - TickSize(p, max);
    if SomeBreakOff(p, max, maxTicks, faults, i) {
      var t: nat :| t < maxTicks - i && PartWay(p, max, faults, i, t);
      FirstBreakOff(p, max, faults, i);
      PartWayShift(p, max, faults, i, t - 1);
    }
    if SomeBreakOff(q, max, maxTicks, faults, i + 1) {
      var t: nat :| t < maxTicks - (i + 1) && PartWay(q, max, faults, i + 1, t);
      PartWayShift(p, max, faults, i, t);
    }
  }

  lemma FirstBreakOff(p: nat, max: int, faults: seq<Faults>, i: nat)
    ensures PartWay(p, max, faults, i, 0) <==> BreaksOff(At(faults, i), TickSize(p, max))
    ensures forall t: nat :: t > 0 && PartWay(p, max, faults, i, t) ==> Completes(At(faults, i), TickSize(p, max))
  {
    AttemptsStart(p, max);
    forall t: nat | t > 0 && PartWay(p, max, faults, i, t)
      ensures Completes(At(faults, i), TickSize(p, max))
    {
      assert Completes(At(faults, i + 0), Attempts(p, max, 0));
    }
  }

  lemma NothingToBreakOff(max: int, faults: seq<Faults>, i: nat, t: nat)
    ensures !PartWay(0, max, faults, i, t)
  {
    NoneLeft(max, t);
  }

  /** One step of the counted loop: it stops here, or completes the tick and goes on. */
  lemma TraceHere(p: nat, max: int, maxTicks: int, faults: seq<Faults>, i: nat)
    ensures var t, f, n := TraceFrom(p, max, maxTicks, faults, i), At(faults, i), TickSize(p, max);
            && (i >= maxTicks || p == 0 ==> t.lost == 0)
            && (i < maxTicks && p > 0 && Completes(f, n) ==> t.lost == TraceFrom(p - n, max, maxTicks, faults, i + 1).lost)
            && (i < maxTicks && p > 0 && !Completes(f, n) ==> (t.lost > 0 <==> BreaksOff(f, n)))
  {
  }

  /** The loop loses versions exactly when some tick it has time for breaks off after complete ones. */
  lemma {:induction false} LosesIff(p: nat, max: int, maxTicks: int, faults: seq<Faults>, i: nat)
    ensures TraceFrom(p, max, maxTicks, faults, i).lost > 0 <==> SomeBreakOff(p, max, maxTicks, faults, i)
    decreases maxTicks - i
  {
    hide TraceFrom, PartWay, TickSize;
    TraceHere(p, max, maxTicks, faults, i);
    if i < maxTicks {
      var n := TickSize(p, max);
      if p == 0 {
        forall t: nat
          ensures !PartWay(p, max, faults, i, t)
        {
          NothingToBreakOff(max, faults, i, t);
        }
      } else if Completes(At(faults, i), n) {
        LosesIff(p - n, max, maxTicks, faults, i + 1);
        SomeBreakOffShift(p, max, maxTicks, faults, i);
      } else {
        FirstBreakOff(p, max, faults, i);
      }
    }
  }

  /** The ticks from `i` up to `i + t` complete and each deletes something. */
  predicate Reaches(p: nat, max: int, faults: seq<Faults>, i: nat, t: nat) {
    forall s :: 0 <= s < t ==> Completes(At(faults, i + s), Attempts(p, max, s)) && Attempts(p, max, s) > 0
  }

  predicate FailsAtTick(p: nat, max: int, faults: seq<Faults>, i: nat, t: nat) {
    Reaches(p, max, faults, i, t) && !Completes(At(faults, i + t), Attempts(p, max, t))
  }

  predicate EmptyAtTick(p: nat, max: int, faults: seq<Faults>, i: nat, t: nat) {
    Reaches(p, max, faults, i, t) && Completes(At(faults, i + t), Attempts(p, max, t)) && Attempts(p, max, t) == 0
  }

  lemma ReachesShift(p: nat, max: int, faults: seq<Faults>, i: nat, t: nat)
    requires p > 0 && Completes(At(faults, i), TickSize(p, max))
    ensures Reaches(p, max, faults, i, t + 1) <==> Reaches(p - TickSize(p, max), max, faults, i + 1, t)
    ensures FailsAtTick(p, max, faults, i, t + 1) <==> FailsAtTick(p - TickSize(p, max), max, faults, i + 1, t)
    ensures EmptyAtTick(p, max, faults, i, t + 1) <==> EmptyAtTick(p - TickSize(p, max), max, faults, i + 1, t)
  {
    hide Attempts, Completes;
    var q := p - TickSize(p, max);
    AttemptsShift(p, max, t);
    AttemptsStart(p, max);
    assert TickSize(p, max) > 0;
    forall s: nat
      ensures Attempts(p, max, s + 1) == Attempts(q, max, s)
    {
      AttemptsShift(p, max, s);
    }
    if Reaches(p, max, faults, i, t + 1) {
      forall s | 0 <= s < t
        ensures Completes(At(faults, i + 1 + s), Attempts(q, max, s)) && Attempts(q, max, s) > 0
      {
        assert Completes(At(faults, i + (s + 1)), Attempts(p, max, s + 1)) && Attempts(p, max, s + 1) > 0;
      }
    }
    if Reaches(q, max, faults, i + 1, t) {
      forall s | 0 <= s < t + 1
        ensures Completes(At(faults, i + s), Attempts(p, max, s)) && Attempts(p, max, s) > 0
      {
        if s > 0 {
          assert Completes(At(faults, i + 1 + (s - 1)), Attempts(q, max, s - 1)) && Attempts(q, max, s - 1) > 0;
        }
      }
    }
  }

  lemma FirstTick(p: nat, max: int, faults: seq<Faults>, i: nat)
    ensures FailsAtTick(p, max, faults, i, 0) <==> !Completes(At(faults, i), TickSize(p, max))
    ensures EmptyAtTick(p, max, faults, i, 0) <==> Completes(At(faults, i), TickSize(p, max)) && p == 0
    ensures forall t: nat :: t > 0 && Reaches(p, max, faults, i, t) ==> Completes(At(faults, i), TickSize(p, max)) && p > 0
  {
    AttemptsStart(p, max);
    forall t: nat | t > 0 && Reaches(p, max, faults, i, t)
      ensures Completes(At(faults, i), TickSize(p, max)) && p > 0
    {
      assert Completes(At(faults, i + 0), Attempts(p, max, 0)) && Attempts(p, max, 0) > 0;
    }
  }

  ghost predicate FailsSometime(p: nat, max: int, maxTicks: int, faults: seq<Faults>, i: nat) {
    exists t: nat :: t < maxTicks - i && FailsAtTick(p, max, faults, i, t)
  }

  ghost predicate EmptySometime(p: nat, max: int, maxTicks: int, faults: seq<Faults>, i: nat) {
    exists t: nat :: t < maxTicks - i && EmptyAtTick(p, max, faults, i, t)
  }

  lemma SometimeShift(p: nat, max: int, maxTicks: int, faults: seq<Faults>, i: nat)
    requires p > 0 && i < maxTicks && Completes(At(faults, i), TickSize(p, max))
    ensures FailsSometime(p, max, maxTicks, faults, i) <==> FailsSometime(p - TickSize(p, max), max, maxTicks, faults, i + 1)
    ensures EmptySometime(p, max, maxTicks, faults, i) <==> EmptySometime(p - TickSize(p, max), max, maxTicks, faults, i + 1)
  {
    hide FailsAtTick, EmptyAtTick, TickSize, Completes;
    var q := p - TickSize(p, max);
    FirstTick(p, max, faults, i);
    if t: nat :| t < maxTicks - i && FailsAtTick(p, max, faults, i, t) {
      ReachesShift(p, max, faults, i, t - 1);
    }
    if t: nat :| t < maxTicks - i && EmptyAtTick(p, max, faults, i, t) {
      ReachesShift(p, max, faults, i, t - 1);
    }
    if FailsSometime(q, max, maxTicks, faults, i + 1) {
      var t: nat :| t < maxTicks - (i + 1) && FailsAtTick(q, max, faults, i + 1, t);
      ReachesShift(p, max, faults, i, t);
    }
    if EmptySometime(q, max, maxTicks, faults, i + 1) {
      var t: nat :| t < maxTicks - (i + 1) && EmptyAtTick(q, max, faults, i + 1, t);
      ReachesShift(p, max, faults, i, t);
    }
  }

  /** How the counted loop goes on from here. */
  lemma OutcomeHere(p: nat, max: int, maxTicks: int, faults: seq<Faults>, i: nat)
    ensures var t, f, n := TraceFrom(p, max, maxTicks, faults, i), At(faults, i), TickSize(p, max);
            && (i >= maxTicks ==> t.outcome == OutOfTicks)
            && (i < maxTicks && !Completes(f, n) ==> t.outcome == TickFailed)
            && (i < maxTicks && Completes(f, n) && p == 0 ==> t.outcome == Converged)
            && (i < maxTicks && Completes(f, n) && p > 0 ==>
                t.outcome == TraceFrom(p - n, max, maxTicks, faults, i + 1).outcome)
  {
  }

  lemma OnlyFirst(p: nat, max: int, maxTicks: int, faults: seq<Faults>, i: nat)
    requires i < maxTicks && !(Completes(At(faults, i), TickSize(p, max)) && p > 0)
    ensures FailsSometime(p, max, maxTicks, faults, i) <==> FailsAtTick(p, max, faults, i, 0)
    ensures EmptySometime(p, max, maxTicks, faults, i) <==> EmptyAtTick(p, max, faults, i, 0)
  {
    hide TickSize, Completes;
    FirstTick(p, max, faults, i);
    assert FailsAtTick(p, max, faults, i, 0) ==> FailsSometime(p, max, maxTicks, faults, i);
    assert EmptyAtTick(p, max, faults, i, 0) ==> EmptySometime(p, max, maxTicks, faults, i);
  }

  /** The loop reports a failed tick exactly when some tick it gets to, each before it having deleted all it
      attempted, fails to list or to delete all it attempts; it converges exactly when it gets so to a
      tick that lists and has nothing to delete; otherwise it runs out of ticks. */
  lemma {:induction false} OutcomeIff(p: nat, max: int, maxTicks: int, faults: seq<Faults>, i: nat)
    ensures TraceFrom(p, max, maxTicks, faults, i).outcome == TickFailed <==> FailsSometime(p, max, maxTicks, faults, i)
    ensures TraceFrom(p, max, maxTicks, faults, i).outcome == Converged <==> EmptySometime(p, max, maxTicks, faults, i)
    decreases maxTicks - i
  {
    hide TraceFrom, FailsAtTick, EmptyAtTick, TickSize, Completes;
    OutcomeHere(p, max, maxTicks, faults, i);
    if i < maxTicks {
      var n := TickSize(p, max);
      FirstTick(p, max, faults, i);
      if Completes(At(faults, i), n) && p > 0 {
        OutcomeIff(p - n, max, maxTicks, faults, i + 1);
        SometimeShift(p, max, maxTicks, faults, i);
      } else {
        OnlyFirst(p, max, maxTicks, faults, i);
      }
    }
  }

  /** `Converge` promises the total pruned. What it returns is all that was deleted exactly when no tick
      it has time for lists its versions, makes at least one delete and fails before its last one, the
      ticks before it having made all theirs; `Attempts` tells the deletes of each tick beforehand. */
  lemma ReturnsTotalIff(prune: seq<VersionMeta>, max: int, maxTicks: int, faults: seq<Faults>)
    ensures var t := TraceFrom(|prune|, max, maxTicks, faults, 0);
            && (Firsts(prune, t.returned) == Firsts(prune, t.returned + t.lost) <==>
                !SomeBreakOff(|prune|, max, maxTicks, faults, 0))
            && (t.lost > 0 ==> t.outcome == TickFailed)
  {
    hide SomeBreakOff;
    var t := TraceFrom(|prune|, max, maxTicks, faults, 0);
    LosesIff(|prune|, max, maxTicks, faults, 0);
    if t.lost > 0 {
      assert |Firsts(prune, t.returned)| < |Firsts(prune, t.returned + t.lost)|;
    }
  }

  /** How many deletes tick `t` attempts, for a caller: as many as are left of the plan, up to `max`. */
  lemma AttemptsAre(p: nat, max: int, t: nat)
    ensures Attempts(p, max, t)
         == if max > 0 then (var left := if p < t * max then 0 else p - t * max; if left > max then max else left)
            else if t > 0 then 0 else p
  {
    ReachedIsBound(p, max, t);
  }

  lemma SingleDeletesComplete(p: nat, max: int, faults: seq<Faults>, t: nat)
    requires p <= 1 || max == 1
    ensures !PartWay(p, max, faults, 0, t)
  {
    assert Attempts(p, max, t) <= 1;
  }

  /** Whatever fails, the total comes back exactly when no tick could break off: the loop runs no tick,
      there is at most one version to delete, or ticks are bounded to one delete. */
  lemma AlwaysReturnsTotalIff(p: nat, max: int, maxTicks: int)
    ensures (forall faults :: TraceFrom(p, max, maxTicks, faults, 0).lost == 0) <==> maxTicks <= 0 || p <= 1 || max == 1
  {
    if maxTicks <= 0 || p <= 1 || max == 1 {
      forall faults
        ensures TraceFrom(p, max, maxTicks, faults, 0).lost == 0
      {
        LosesIff(p, max, maxTicks, faults, 0);
        forall t: nat | t < maxTicks
          ensures !PartWay(p, max, faults, 0, t)
        {
          SingleDeletesComplete(p, max, faults, t);
        }
      }
    } else {
      FailedTickGoesUnreported(p, max, maxTicks);
      assert TraceFrom(p, max, maxTicks, [Faults(false, Some(1))], 0).lost == 1;
    }
  }

  /** A first tick whose second delete fails: one version is gone and none is reported. */
  lemma FailedTickGoesUnreported(p: nat, max: int, maxTicks: int)
    requires p >= 2 && max != 1 && maxTicks > 0
    ensures TraceFrom(p, max, maxTicks, [Faults(false, Some(1))], 0) == Trace(0, 1, TickFailed)
  {
    assert TickSize(p, max) >= 2;
  }
}
