/** What holds of the version store over every run of a mount: it follows the retention loop's listing,
    agrees with the ledger, and keeps what it froze. */
module StoreRuns {
  import opened Codecs
  import opened Governance
  import opened Mount
  import opened MountRuns
  import opened Names
  import opened Options
  import opened Retain
  import opened Retention
  import opened Snapshots
  import opened Trees

  // ---------- ticks on the store ----------

  lemma RemovedAllSnoc(dir: string, store: Store, vs: seq<Version>, v: Version)
    ensures RemovedAll(dir, store, vs + [v]) == Removed(dir, RemovedAll(dir, store, vs), v.ref)
  {
    assert (vs + [v])[..|vs|] == vs;
  }

  lemma {:induction false} MetasAreVersions(dir: string, ids: seq<string>, store: Store, v: VersionMeta)
    requires forall i :: 0 <= i < |ids| ==> ids[i] in store
    requires v in Metas(dir, ids, store)
    ensures v.version.id in store && v.version == VersionOf(dir, v.version.id)
  {
    var n := |ids| - 1;
    if v in Metas(dir, ids[..n], store) {
      MetasAreVersions(dir, ids[..n], store, v);
    }
  }

  lemma ListedVersions(dir: string, store: Store, v: VersionMeta)
    requires v in Listing(dir, store)
    ensures v.version.id in store && v.version == VersionOf(dir, v.version.id)
  {
    SortedNamesMembers(store.Keys);
    MetasAreVersions(dir, SortedNames(store.Keys), store, v);
  }

  lemma PlannedVersions(p: Policy, dir: string, store: Store, now: int, i: nat)
    requires i < |PlanSplit(p, Listing(dir, store), now).prune|
    ensures var v := PlanSplit(p, Listing(dir, store), now).prune[i];
            v.version.id in store && v.version == VersionOf(dir, v.version.id)
  {
    var held := Listing(dir, store);
    var plan := PlanSplit(p, held, now);
    PlanPermutes(p, held, now);
    assert plan.prune[i] in plan.keep + plan.prune;
    assert plan.prune[i] in multiset(held);
    ListedVersions(dir, store, plan.prune[i]);
  }

  lemma NoneRemoved(dir: string, store: Store)
    ensures RemovedAll(dir, store, []) == store
  {
  }

  /** The directory store and the loop's listing move together, deletion by deletion. */
  lemma {:induction false} StoreFollowsListing(dir: string, store: Store, plan: seq<VersionMeta>, k: nat)
    requires k <= |plan|
    requires forall i :: 0 <= i < k ==> plan[i].version == VersionOf(dir, plan[i].version.id)
    ensures Listing(dir, RemovedAll(dir, store, Firsts(plan, k))) == After(Listing(dir, store), plan, k)
  {
    hide Listing, RemovedAll, Removed, Without, RefOf;
    if k == 0 {
      NoneRemoved(dir, store);
    } else {
      StoreFollowsListing(dir, store, plan, k - 1);
      var v := plan[k - 1].version;
      RemovedAllSnoc(dir, store, Firsts(plan, k - 1), v);
      ListingAfterPrune(dir, RemovedAll(dir, store, Firsts(plan, k - 1)), v.id);
    }
  }

  lemma TickRemoves(dir: string, store: Store, p: Policy, max: int, now: int, f: Faults)
    ensures var t := TickStep(p, max, Listing(dir, store), now, f);
            Listing(dir, RemovedAll(dir, store, t.pruned)) == t.held
  {
    hide Listing, RemovedAll, TickStep, PlanSplit, Attempted, After, Firsts, TickSize;
    var held := Listing(dir, store);
    TickStepIs(p, max, held, now, f);
    var prune := PlanSplit(p, held, now).prune;
    var k := Attempted(|prune|, max, f);
    forall i | 0 <= i < k
      ensures prune[i].version == VersionOf(dir, prune[i].version.id)
    {
      PlannedVersions(p, dir, store, now, i);
    }
    StoreFollowsListing(dir, store, prune, k);
  }

  /** So a retention tick on the directory store is the tick the convergence results speak about. */
  lemma TickOnStore(m: Mountpoint, w: World, e: Event)
    requires e.Retention?
    ensures DistinctRefs(Listing(m.dir, w.store))
    ensures Listing(m.dir, Step(m, w, e).store) == TickStep(e.policy, e.max, Listing(m.dir, w.store), e.now, e.faults).held
    ensures Step(m, w, e) == w.(store := Step(m, w, e).store)
  {
    hide Listing, RemovedAll, TickStep, DistinctRefs;
    ListingDistinct(m.dir, w.store);
    TickRemoves(m.dir, w.store, e.policy, e.max, e.now, e.faults);
  }

  // ---------- commits, ticks and the ledger agree ----------

  const ALLOW_SNAPSHOT: string := "allow: snapshot "

  /** A receipt that binds version `id` into the ledger. */
  predicate Pins(r: Receipt, id: string) {
    r.op == OP_COMMIT && r.path == COMMIT_SCHEME + id && ALLOW_SNAPSHOT <= r.verdict
  }

  ghost predicate Pinned(ledger: seq<Receipt>, id: string) {
    exists i :: 0 <= i < |ledger| && Pins(ledger[i], id)
  }

  /** The ids some tick of the run returned as pruned. */
  ghost function PrunedIds(m: Mountpoint, w: World, es: seq<Event>): set<string> {
    if es == [] then {}
    else
      var front, last := es[..|es| - 1], es[|es| - 1];
      PrunedIds(m, w, front) + if last.Retention? then Ids(TickOn(m, Run(m, w, front).store, last).pruned) else {}
  }

  function Ids(vs: seq<Version>): set<string> { set v | v in vs :: v.id }

  predicate CleanEvent(e: Event) { e.CommitVia? ==> CleanFault(e.fault) }

  /** Each held id is pinned, and each pinned id is held or was pruned. */
  ghost predicate Agrees(ledger: seq<Receipt>, store: Store, gone: set<string>) {
    && (forall id :: id in store ==> Pinned(ledger, id))
    && (forall id :: Pinned(ledger, id) ==> id in store || id in gone)
  }

  lemma SchemeInjective(a: string, b: string)
    requires COMMIT_SCHEME + a == COMMIT_SCHEME + b
    ensures a == b
  {
    assert (COMMIT_SCHEME + a)[|COMMIT_SCHEME|..] == a && (COMMIT_SCHEME + b)[|COMMIT_SCHEME|..] == b;
  }

  lemma PinnedSnoc(ledger: seq<Receipt>, r: Receipt, id: string)
    ensures Pinned(ledger + [r], id) <==> Pinned(ledger, id) || Pins(r, id)
  {
    var grown := ledger + [r];
    if Pinned(ledger, id) {
      var i :| 0 <= i < |ledger| && Pins(ledger[i], id);
      assert Pins(grown[i], id);
    }
    if Pins(r, id) {
      assert Pins(grown[|ledger|], id);
    }
  }

  lemma SnapshotId(c: Codec, dir: string, files: Files, store: Store, now: int, fault: SnapFault)
    ensures var s := SnapStep(c, dir, files, store, now, fault);
            s.version.Some? ==> s.version.value.id == TreeHash(c, files)
  {
  }

  /** What a step's new receipt pins: the committed version's id, or nothing. */
  lemma NewReceiptPins(m: Mountpoint, w: World, e: Event, id: string)
    requires Receipted(w, e)
    ensures var after := Step(m, w, e);
            && |after.ledger| == |w.ledger| + 1 && after.ledger == w.ledger + [after.ledger[|w.ledger|]]
            && (Pins(after.ledger[|w.ledger|], id) <==>
                e.CommitVia? && Check(m.lease, m.space, OP_COMMIT, e.at.checkedAt).None?
                && SnapStep(m.codec, m.dir, w.files, w.store, e.at.frozenAt, e.fault).version.Some?
                && id == TreeHash(m.codec, w.files))
  {
    hide TreeHash, DenialText, SnapStep, Check;
    var r := Step(m, w, e).ledger[|w.ledger|];
    match e {
      case Issue(_, call, _) =>
        assert r.op == OpOf(call) != OP_COMMIT;
      case CommitVia(_, purpose, at, fault) =>
        var s := SnapStep(m.codec, m.dir, w.files, w.store, at.frozenAt, fault);
        SnapshotId(m.codec, m.dir, w.files, w.store, at.frozenAt, fault);
        if Check(m.lease, m.space, OP_COMMIT, at.checkedAt).Some? {
          assert r.verdict[0] == 'd' && ALLOW_SNAPSHOT[0] == 'a';
        } else if s.version.None? {
          assert r.verdict[0] == 'e' && ALLOW_SNAPSHOT[0] == 'a';
        } else {
          assert r.verdict == ALLOW_SNAPSHOT + purpose && r.path == COMMIT_SCHEME + s.version.value.id;
          if Pins(r, id) {
            SchemeInjective(id, s.version.value.id);
          }
        }
    }
  }

  /** A commit that is let through, finds its id absent, and fails with a directory left behind. */
  ghost predicate Leaks(m: Mountpoint, w: World, e: Event) {
    && Receipted(w, e) && e.CommitVia? && Check(m.lease, m.space, OP_COMMIT, e.at.checkedAt).None?
    && LeavesPart(m.codec, w.files, w.store, e.fault)
  }

  lemma CleanNeverLeaks(m: Mountpoint, w: World, e: Event)
    requires CleanEvent(e)
    ensures !Leaks(m, w, e)
  {
  }

  /** What a commit does to the set of held ids. */
  lemma CommitHolds(m: Mountpoint, w: World, e: Event)
    requires Receipted(w, e)
    ensures var after, h := Step(m, w, e), TreeHash(m.codec, w.files);
            forall id :: id in after.store <==>
              id in w.store || (id == h && (Leaks(m, w, e) || Pins(after.ledger[|w.ledger|], h)))
  {
    hide TreeHash, DenialText;
    NewReceiptPins(m, w, e, TreeHash(m.codec, w.files));
  }

  lemma CommitAgreesIff(m: Mountpoint, w: World, e: Event, gone: set<string>)
    requires Receipted(w, e) && Agrees(w.ledger, w.store, gone)
    ensures Agrees(Step(m, w, e).ledger, Step(m, w, e).store, gone) <==>
            !Leaks(m, w, e) || Pinned(w.ledger, TreeHash(m.codec, w.files))
  {
    hide Step, Leaks, Pins, Pinned, TreeHash, Check, SnapStep, Receipted;
    var after, h := Step(m, w, e), TreeHash(m.codec, w.files);
    CommitHolds(m, w, e);
    NewReceiptPins(m, w, e, h);
    forall id
      ensures Pinned(after.ledger, id) <==> Pinned(w.ledger, id) || Pins(after.ledger[|w.ledger|], id)
      ensures Pins(after.ledger[|w.ledger|], id) ==> id == h && !Leaks(m, w, e)
    {
      NewReceiptPins(m, w, e, id);
      PinnedSnoc(w.ledger, after.ledger[|w.ledger|], id);
      LeaksPinNothing(m, w, e);
    }
    assert Leaks(m, w, e) ==> h in after.store;
  }

  lemma LeaksPinNothing(m: Mountpoint, w: World, e: Event)
    ensures Leaks(m, w, e) ==> SnapStep(m.codec, m.dir, w.files, w.store, e.at.frozenAt, e.fault).version.None?
  {
  }

  lemma {:induction false} RemovedIds(dir: string, store: Store, vs: seq<Version>, id: string)
    requires forall v :: v in vs ==> v == VersionOf(dir, v.id)
    ensures id in RemovedAll(dir, store, vs) <==> id in store && id !in Ids(vs)
    ensures id in RemovedAll(dir, store, vs) ==> RemovedAll(dir, store, vs)[id] == store[id]
  {
    if vs != [] {
      var front, last := vs[..|vs| - 1], vs[|vs| - 1];
      assert vs == front + [last];
      RemovedIds(dir, store, front, id);
      RefsDiffer(dir, id, last.id);
      assert Ids(vs) == Ids(front) + {last.id};
    }
  }

  lemma {:induction false} FirstsMember(plan: seq<VersionMeta>, k: nat, v: Version) returns (i: nat)
    requires k <= |plan| && v in Firsts(plan, k)
    ensures i < k && plan[i].version == v
  {
    if v in Firsts(plan, k - 1) {
      i := FirstsMember(plan, k - 1, v);
    } else {
      i := k - 1;
    }
  }

  lemma TickedVersions(m: Mountpoint, store: Store, e: Event, v: Version)
    requires e.Retention? && v in TickOn(m, store, e).pruned
    ensures v.id in store && v == VersionOf(m.dir, v.id)
  {
    var held := Listing(m.dir, store);
    TickStepIs(e.policy, e.max, held, e.now, e.faults);
    var prune := PlanSplit(e.policy, held, e.now).prune;
    var i := FirstsMember(prune, Attempted(|prune|, e.max, e.faults), v);
    PlannedVersions(e.policy, m.dir, store, e.now, i);
  }

  lemma TickAgrees(m: Mountpoint, w: World, e: Event, gone: set<string>)
    requires e.Retention? && Agrees(w.ledger, w.store, gone)
    ensures Agrees(Step(m, w, e).ledger, Step(m, w, e).store, gone + Ids(TickOn(m, w.store, e).pruned))
  {
    var vs := TickOn(m, w.store, e).pruned;
    forall v | v in vs
      ensures v == VersionOf(m.dir, v.id)
    {
      TickedVersions(m, w.store, e, v);
    }
    forall id
      ensures id in RemovedAll(m.dir, w.store, vs) <==> id in w.store && id !in Ids(vs)
    {
      RemovedIds(m.dir, w.store, vs, id);
    }
  }

  /** The pruned ids once `e` has happened too. */
  ghost function GoneAfter(m: Mountpoint, w: World, e: Event, gone: set<string>): set<string> {
    gone + if e.Retention? then Ids(TickOn(m, w.store, e).pruned) else {}
  }

  /** The event leaves no directory that no receipt pins. */
  ghost predicate Harmless(m: Mountpoint, w: World, e: Event) {
    !Leaks(m, w, e) || Pinned(w.ledger, TreeHash(m.codec, w.files))
  }

  /** From a world where store and ledger agree, any event keeps them so exactly when it is harmless. */
  lemma AgreesIff(m: Mountpoint, w: World, e: Event, gone: set<string>)
    requires Agrees(w.ledger, w.store, gone)
    ensures Agrees(Step(m, w, e).ledger, Step(m, w, e).store, GoneAfter(m, w, e, gone)) <==> Harmless(m, w, e)
  {
    hide Agrees, TickOn, TreeHash, Pinned, Check, Govern, CommitStep, RemovedAll;
    assert GoneAfter(m, w, e, gone) == gone || e.Retention?;
    if Receipted(w, e) {
      CommitAgreesIff(m, w, e, gone);
    } else if e.Retention? {
      TickAgrees(m, w, e, gone);
    }
  }

  /** Each version the store holds is pinned by an allow receipt of a commit, and each pinned version no
      longer held was returned by a tick. */
  ghost predicate InAgreement(m: Mountpoint, files: Files, es: seq<Event>) {
    Agrees(Run(m, Start(files), es).ledger, Run(m, Start(files), es).store, PrunedIds(m, Start(files), es))
  }

  ghost predicate AlwaysInAgreement(m: Mountpoint, files: Files, es: seq<Event>) {
    forall i :: 0 <= i <= |es| ==> InAgreement(m, files, es[..i])
  }

  ghost predicate AlwaysHarmless(m: Mountpoint, files: Files, es: seq<Event>) {
    forall i :: 0 <= i < |es| ==> Harmless(m, Run(m, Start(files), es[..i]), es[i])
  }

  lemma StartAgrees(m: Mountpoint, files: Files)
    ensures InAgreement(m, files, [])
  {
  }

  lemma SnocAgreement(m: Mountpoint, files: Files, es: seq<Event>)
    requires es != []
    ensures var n := |es| - 1;
            AlwaysInAgreement(m, files, es) <==> AlwaysInAgreement(m, files, es[..n]) && InAgreement(m, files, es)
  {
    hide InAgreement;
    var n := |es| - 1;
    assert es[..|es|] == es;
    forall i | 0 <= i <= n
      ensures es[..n][..i] == es[..i]
    {
    }
    if AlwaysInAgreement(m, files, es) {
      forall i | 0 <= i <= n
        ensures InAgreement(m, files, es[..n][..i])
      {
        assert InAgreement(m, files, es[..i]);
      }
      assert InAgreement(m, files, es[..|es|]);
    }
    if AlwaysInAgreement(m, files, es[..n]) && InAgreement(m, files, es) {
      forall i | 0 <= i <= |es|
        ensures InAgreement(m, files, es[..i])
      {
        if i <= n {
          assert InAgreement(m, files, es[..n][..i]);
        }
      }
    }
  }

  lemma SnocHarmless(m: Mountpoint, files: Files, es: seq<Event>)
    requires es != []
    ensures var n := |es| - 1;
            AlwaysHarmless(m, files, es) <==>
            AlwaysHarmless(m, files, es[..n]) && Harmless(m, Run(m, Start(files), es[..n]), es[n])
  {
    hide Harmless, Run;
    var n := |es| - 1;
    forall i | 0 <= i < n
      ensures es[..n][..i] == es[..i] && es[..n][i] == es[i]
    {
    }
    if AlwaysHarmless(m, files, es) {
      forall i | 0 <= i < n
        ensures Harmless(m, Run(m, Start(files), es[..n][..i]), es[..n][i])
      {
        assert Harmless(m, Run(m, Start(files), es[..i]), es[i]);
      }
    }
    if AlwaysHarmless(m, files, es[..n]) && Harmless(m, Run(m, Start(files), es[..n]), es[n]) {
      forall i | 0 <= i < |es|
        ensures Harmless(m, Run(m, Start(files), es[..i]), es[i])
      {
        if i < n {
          assert Harmless(m, Run(m, Start(files), es[..n][..i]), es[..n][i]);
        }
      }
    }
  }

  /** Over every run, whatever fails: store and ledger agree at every point exactly when no commit, let
      through and finding its id absent and unpinned, fails with a directory left behind. */
  lemma {:induction false} StoreAndLedgerAgreeIff(m: Mountpoint, files: Files, es: seq<Event>)
    ensures AlwaysInAgreement(m, files, es) <==> AlwaysHarmless(m, files, es)
  {
    hide Step, Harmless, Agrees, GoneAfter;
    if es == [] {
      StartAgrees(m, files);
    } else {
      var n := |es| - 1;
      StoreAndLedgerAgreeIff(m, files, es[..n]);
      SnocAgreement(m, files, es);
      SnocHarmless(m, files, es);
      if AlwaysInAgreement(m, files, es[..n]) {
        LastInAgreement(m, files, es[..n]);
        AgreesIff(m, Run(m, Start(files), es[..n]), es[n], PrunedIds(m, Start(files), es[..n]));
        PrunedSnoc(m, files, es);
      }
    }
  }

  lemma LastInAgreement(m: Mountpoint, files: Files, es: seq<Event>)
    requires AlwaysInAgreement(m, files, es)
    ensures InAgreement(m, files, es)
  {
    assert es[..|es|] == es;
  }

  lemma PrunedSnoc(m: Mountpoint, files: Files, es: seq<Event>)
    requires es != []
    ensures var n := |es| - 1;
            && PrunedIds(m, Start(files), es)
               == GoneAfter(m, Run(m, Start(files), es[..n]), es[n], PrunedIds(m, Start(files), es[..n]))
            && Run(m, Start(files), es) == Step(m, Run(m, Start(files), es[..n]), es[n])
  {
  }

  /** So in every run whose failing copies leave nothing behind they agree. */
  lemma StoreAndLedgerAgree(m: Mountpoint, files: Files, es: seq<Event>)
    requires forall e :: e in es ==> CleanEvent(e)
    ensures InAgreement(m, files, es)
  {
    hide InAgreement, Leaks, CleanEvent, Pinned;
    forall i | 0 <= i < |es|
      ensures Harmless(m, Run(m, Start(files), es[..i]), es[i])
    {
      CleanNeverLeaks(m, Run(m, Start(files), es[..i]), es[i]);
    }
    StoreAndLedgerAgreeIff(m, files, es);
    LastInAgreement(m, files, es);
  }

  /** A commit whose copy fails part way breaks the agreement: the store holds an id no receipt pins. */
  lemma PartialCopyUnpinned(m: Mountpoint, files: Files, at: Clock, msg: string, left: Files)
    requires Check(m.lease, m.space, OP_COMMIT, at.checkedAt).None?
    ensures var end := Run(m, Start(files), [CommitVia(0, "p", at, CopyFails(msg, Some(left)))]);
            TreeHash(m.codec, files) in end.store && forall id :: !Pinned(end.ledger, id)
  {
    var e := CommitVia(0, "p", at, CopyFails(msg, Some(left)));
    var w := Start(files);
    assert [e][..0] == [];
    assert Run(m, w, [e]) == Step(m, w, e);
    forall id
      ensures !Pinned(Step(m, w, e).ledger, id)
    {
      NewReceiptPins(m, w, e, id);
      PinnedSnoc(w.ledger, Step(m, w, e).ledger[0], id);
    }
  }

  // ---------- frozen versions stay what they were ----------

  /** No event alters a frozen version; only a tick that returns it removes one. */
  lemma FrozenIsImmutable(m: Mountpoint, w: World, e: Event, id: string)
    requires id in w.store
    ensures var after := Step(m, w, e).store;
            if id in after then after[id] == w.store[id] else e.Retention? && id in Ids(TickOn(m, w.store, e).pruned)
  {
    hide SnapStep, TickOn, RemovedAll, Govern, Noted, DenialText, Check, Ids, TreeHash;
    match e {
      case Issue(_, _, _) =>
      case Edit(_) =>
      case CommitVia(_, _, at, fault) =>
        SnapshotOnlyAdds(m.codec, m.dir, w.files, w.store, at.frozenAt, fault);
      case Retention(_, _, _, _) =>
        var vs := TickOn(m, w.store, e).pruned;
        forall v | v in vs
          ensures v == VersionOf(m.dir, v.id)
        {
          TickedVersions(m, w.store, e, v);
        }
        RemovedIds(m.dir, w.store, vs, id);
    }
  }

  /** What an event's leftovers are worth: nothing leaks, or what leaks is a tree with that very hash. */
  ghost predicate LeaksATree(m: Mountpoint, w: World, e: Event) {
    Leaks(m, w, e) ==> FrozenFrom(m.codec, TreeHash(m.codec, w.files), Frozen(e.fault.left.value, e.at.frozenAt))
  }

  lemma TickFaithful(m: Mountpoint, w: World, e: Event)
    requires e.Retention? && Faithful(m.codec, w.store)
    ensures Faithful(m.codec, Step(m, w, e).store)
  {
    var after, vs := Step(m, w, e).store, TickOn(m, w.store, e).pruned;
    forall v | v in vs
      ensures v == VersionOf(m.dir, v.id)
    {
      TickedVersions(m, w.store, e, v);
    }
    forall id | id in after
      ensures FrozenFrom(m.codec, id, after[id])
    {
      RemovedIds(m.dir, w.store, vs, id);
    }
  }

  /** From a store whose ids stand for trees that hash to them, any event keeps it so exactly when it
      leaks nothing but trees with that very hash. */
  lemma FaithfulIff(m: Mountpoint, w: World, e: Event)
    requires LineSafe(w.files) && Faithful(m.codec, w.store)
    ensures Faithful(m.codec, Step(m, w, e).store) <==> LeaksATree(m, w, e)
  {
    hide LineSafe, Faithful, FrozenFrom, TreeHash, SnapStep, Check, LeavesPart;
    if e.Retention? {
      TickFaithful(m, w, e);
    } else if e.CommitVia? {
      SnapshotFaithfulIff(m.codec, m.dir, w.files, w.store, e.at.frozenAt, e.fault);
    }
  }

  ghost predicate AlwaysFaithful(m: Mountpoint, files: Files, es: seq<Event>) {
    forall i :: 0 <= i <= |es| ==> Faithful(m.codec, Run(m, Start(files), es[..i]).store)
  }

  ghost predicate AlwaysLeaksTrees(m: Mountpoint, files: Files, es: seq<Event>) {
    forall i :: 0 <= i < |es| ==> LeaksATree(m, Run(m, Start(files), es[..i]), es[i])
  }

  ghost predicate AlwaysLineSafe(m: Mountpoint, files: Files, es: seq<Event>) {
    forall i :: 0 <= i <= |es| ==> LineSafe(Run(m, Start(files), es[..i]).files)
  }

  lemma SnocFaithful(m: Mountpoint, files: Files, es: seq<Event>)
    requires es != []
    ensures var n := |es| - 1;
            AlwaysFaithful(m, files, es) <==>
            AlwaysFaithful(m, files, es[..n]) && Faithful(m.codec, Run(m, Start(files), es).store)
  {
    hide Faithful, Run;
    var n := |es| - 1;
    SnocRuns(m, files, es);
    if AlwaysFaithful(m, files, es) {
      forall i | 0 <= i <= n
        ensures Faithful(m.codec, Run(m, Start(files), es[..n][..i]).store)
      {
        assert Faithful(m.codec, Run(m, Start(files), es[..i]).store);
      }
      assert Faithful(m.codec, Run(m, Start(files), es[..|es|]).store);
    }
    if AlwaysFaithful(m, files, es[..n]) && Faithful(m.codec, Run(m, Start(files), es).store) {
      forall i | 0 <= i <= |es|
        ensures Faithful(m.codec, Run(m, Start(files), es[..i]).store)
      {
        if i <= n {
          assert Faithful(m.codec, Run(m, Start(files), es[..n][..i]).store);
        }
      }
    }
  }

  lemma SnocLeaks(m: Mountpoint, files: Files, es: seq<Event>)
    requires es != []
    ensures var n := |es| - 1;
            AlwaysLeaksTrees(m, files, es) <==>
            AlwaysLeaksTrees(m, files, es[..n]) && LeaksATree(m, Run(m, Start(files), es[..n]), es[n])
  {
    hide LeaksATree, Run;
    var n := |es| - 1;
    SnocRuns(m, files, es);
    if AlwaysLeaksTrees(m, files, es) {
      forall i | 0 <= i < n
        ensures LeaksATree(m, Run(m, Start(files), es[..n][..i]), es[..n][i])
      {
        assert LeaksATree(m, Run(m, Start(files), es[..i]), es[i]);
      }
    }
    if AlwaysLeaksTrees(m, files, es[..n]) && LeaksATree(m, Run(m, Start(files), es[..n]), es[n]) {
      forall i | 0 <= i < |es|
        ensures LeaksATree(m, Run(m, Start(files), es[..i]), es[i])
      {
        if i < n {
          assert LeaksATree(m, Run(m, Start(files), es[..n][..i]), es[..n][i]);
        }
      }
    }
  }

  lemma FrontLineSafe(m: Mountpoint, files: Files, es: seq<Event>)
    requires es != [] && AlwaysLineSafe(m, files, es)
    ensures var n := |es| - 1;
            AlwaysLineSafe(m, files, es[..n]) && LineSafe(Run(m, Start(files), es[..n]).files)
  {
    hide LineSafe, Run;
    var n := |es| - 1;
    SnocRuns(m, files, es);
    forall i | 0 <= i <= n
      ensures LineSafe(Run(m, Start(files), es[..n][..i]).files)
    {
      assert LineSafe(Run(m, Start(files), es[..i]).files);
    }
    assert LineSafe(Run(m, Start(files), es[..n]).files);
  }

  /** Whatever holds of every prefix, or of every event, holds of those of the front and of the last. */
  lemma SnocRuns(m: Mountpoint, files: Files, es: seq<Event>)
    requires es != []
    ensures var n := |es| - 1;
            && (forall i :: 0 <= i <= n ==> Run(m, Start(files), es[..n][..i]) == Run(m, Start(files), es[..i]))
            && Run(m, Start(files), es[..|es|]) == Run(m, Start(files), es)
  {
    hide Run;
    var n := |es| - 1;
    assert es[..|es|] == es;
    forall i | 0 <= i <= n
      ensures Run(m, Start(files), es[..n][..i]) == Run(m, Start(files), es[..i])
    {
      assert es[..n][..i] == es[..i];
    }
  }

  /** What an event leaves behind is the complete copy, if anything. */
  ghost predicate LeaksTheCopy(m: Mountpoint, w: World, e: Event) {
    Leaks(m, w, e) ==> e.fault.left.value == Freeze(w.files)
  }

  ghost predicate AlwaysLeaksCopies(m: Mountpoint, files: Files, es: seq<Event>) {
    forall i :: 0 <= i < |es| ==> LeaksTheCopy(m, Run(m, Start(files), es[..i]), es[i])
  }

  /** No working tree of the run collides under the hash. */
  ghost predicate NeverCollides(m: Mountpoint, files: Files, es: seq<Event>) {
    forall i :: 0 <= i <= |es| ==> !Collides(m.codec, Run(m, Start(files), es[..i]).files)
  }

  lemma LeaksIff(m: Mountpoint, w: World, e: Event)
    requires WellFormed(m.codec) && LineSafe(w.files) && !Collides(m.codec, w.files)
    ensures LeaksATree(m, w, e) <==> LeaksTheCopy(m, w, e)
  {
    hide WellFormed, LineSafe, Collides, FrozenFrom, TreeHash, Freeze, Check, Receipted;
    if Leaks(m, w, e) {
      FrozenFromIff(m.codec, w.files, Frozen(e.fault.left.value, e.at.frozenAt));
    }
  }

  lemma AlwaysLeaksIff(m: Mountpoint, files: Files, es: seq<Event>)
    requires WellFormed(m.codec) && AlwaysLineSafe(m, files, es) && NeverCollides(m, files, es)
    ensures AlwaysLeaksTrees(m, files, es) <==> AlwaysLeaksCopies(m, files, es)
  {
    hide WellFormed, LineSafe, Collides, Run, LeaksATree, LeaksTheCopy;
    forall i | 0 <= i < |es|
      ensures LeaksATree(m, Run(m, Start(files), es[..i]), es[i]) <==> LeaksTheCopy(m, Run(m, Start(files), es[..i]), es[i])
    {
      LeaksIff(m, Run(m, Start(files), es[..i]), es[i]);
    }
  }

  /** Over every run whose trees keep newlines out of paths, whatever fails: at every point each id in the
      store stands for a tree that hashes to it exactly when no commit, let through and finding its id
      absent, fails leaving anything but such a tree. */
  lemma {:induction false} VersionsStayFaithfulIff(m: Mountpoint, files: Files, es: seq<Event>)
    requires AlwaysLineSafe(m, files, es)
    ensures AlwaysFaithful(m, files, es) <==> AlwaysLeaksTrees(m, files, es)
  {
    hide Step, LeaksATree, LineSafe, Faithful;
    if es == [] {
      NothingYet(m, files);
    } else {
      var n := |es| - 1;
      SnocFaithful(m, files, es);
      SnocLeaks(m, files, es);
      FrontLineSafe(m, files, es);
      VersionsStayFaithfulIff(m, files, es[..n]);
      if AlwaysFaithful(m, files, es[..n]) {
        LastFaithful(m, files, es[..n]);
        FaithfulIff(m, Run(m, Start(files), es[..n]), es[n]);
      }
    }
  }

  /** And unless a working tree of the run collides under the hash: exactly when no commit, let through
      and finding its id absent, fails leaving anything but the complete copy. */
  lemma VersionsStayCompleteIff(m: Mountpoint, files: Files, es: seq<Event>)
    requires WellFormed(m.codec) && AlwaysLineSafe(m, files, es) && NeverCollides(m, files, es)
    ensures AlwaysFaithful(m, files, es) <==> AlwaysLeaksCopies(m, files, es)
  {
    hide WellFormed, AlwaysLineSafe, NeverCollides, AlwaysFaithful, AlwaysLeaksTrees, AlwaysLeaksCopies;
    VersionsStayFaithfulIff(m, files, es);
    AlwaysLeaksIff(m, files, es);
  }

  lemma NothingYet(m: Mountpoint, files: Files)
    ensures AlwaysFaithful(m, files, [])
  {
  }

  lemma LastFaithful(m: Mountpoint, files: Files, es: seq<Event>)
    requires AlwaysFaithful(m, files, es)
    ensures Faithful(m.codec, Run(m, Start(files), es).store)
  {
    hide Faithful;
    assert es[..|es|] == es;
  }

  /** So across any run of calls, edits, commits and ticks whose failing copies leave nothing behind and
      whose trees keep newlines out of paths, whenever a tree - a working tree of the run, say - has its
      id in the store, the directory holds exactly that tree's paths and contents, or the hash collides. */
  lemma VersionsStayFaithful(m: Mountpoint, files: Files, es: seq<Event>, t: Files)
    requires WellFormed(m.codec)
    requires forall e :: e in es ==> CleanEvent(e)
    requires AlwaysLineSafe(m, files, es)
    ensures var end := Run(m, Start(files), es);
            && Faithful(m.codec, end.store)
            && (LineSafe(t) && TreeHash(m.codec, t) in end.store ==>
                end.store[TreeHash(m.codec, t)].files == Freeze(t) || Collides(m.codec, t))
  {
    hide Faithful, LineSafe, Run, Leaks, CleanEvent, WellFormed, Collides, TreeHash, FrozenFrom;
    var end := Run(m, Start(files), es);
    forall i | 0 <= i < |es|
      ensures LeaksATree(m, Run(m, Start(files), es[..i]), es[i])
    {
      CleanNeverLeaks(m, Run(m, Start(files), es[..i]), es[i]);
    }
    VersionsStayFaithfulIff(m, files, es);
    LastFaithful(m, files, es);
    if LineSafe(t) && TreeHash(m.codec, t) in end.store {
      FaithfulHolds(m.codec, end.store, t);
    }
  }
}
