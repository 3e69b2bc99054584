/** Runs of one mount: governed calls through the root view and every view carved out of it, commits,
    retention ticks, and edits that bypass the membrane. */
module MountRuns {
  import opened Codecs
  import opened Governance
  import opened Mount
  import opened Options
  import opened Retain
  import opened Retention
  import opened Snapshots
  import opened Sorting
  import opened Trees

  /** What all views of a mount share and never change. */
  datatype Mountpoint = Mountpoint(codec: Codec, space: string, lease: Option<Lease>, dir: string)

  datatype View = View(base: string, snapping: bool)

  datatype World = World(ledger: seq<Receipt>, files: Files, store: Store, views: seq<View>)

  datatype Event =
    | Issue(view: nat, call: Call, at: Clock)
    | CommitVia(view: nat, purpose: string, at: Clock, fault: SnapFault)
    | Edit(files: Files)   // open handles and anything else outside the membrane
    | Retention(policy: Policy, max: int, now: int, faults: Faults)

  ghost function Start(files: Files): World {
    World([], files, map[], [View("", true)])
  }

  /** The store after the versions of `vs` are removed, in order. */
  function RemovedAll(dir: string, store: Store, vs: seq<Version>): Store {
    if vs == [] then store else Removed(dir, RemovedAll(dir, store, vs[..|vs| - 1]), vs[|vs| - 1].ref)
  }

  ghost function TickOn(m: Mountpoint, store: Store, e: Event): Ticked
    requires e.Retention?
  {
    TickStep(e.policy, e.max, Listing(m.dir, store), e.now, e.faults)
  }

  /** A call needs a view to go through; a commit needs one that has a snapshotter. */
  predicate Receipted(w: World, e: Event) {
    match e
    case Issue(v, _, _) => v < |w.views|
    case CommitVia(v, _, _, _) => v < |w.views| && w.views[v].snapping
    case _ => false
  }

  ghost function Step(m: Mountpoint, w: World, e: Event): World {
    match e
    case Issue(v, call, at) =>
      if v >= |w.views| then w
      else
        var g := Govern(m.codec, m.space, m.lease, w.views[v].base, w.ledger, w.files, call, at);
        var more := if call.Chroot? && g.answer == Returned(Done) then [View(Under(w.views[v].base, call.path), false)] else [];
        w.(ledger := g.ledger, files := g.files, views := w.views + more)
    case CommitVia(v, purpose, at, fault) =>
      if !Receipted(w, e) then w
      else
        var s := CommitStep(m.codec, m.space, m.lease, m.dir, w.ledger, w.files, w.store, purpose, at, fault);
        w.(ledger := s.ledger, store := s.store)
    case Edit(files) => w.(files := files)
    case Retention(_, _, _, _) => w.(store := RemovedAll(m.dir, w.store, TickOn(m, w.store, e).pruned))
  }

  ghost function Run(m: Mountpoint, w: World, es: seq<Event>): World {
    if es == [] then w else Step(m, Run(m, w, es[..|es| - 1]), es[|es| - 1])
  }

  ghost function ReceiptCount(m: Mountpoint, w: World, es: seq<Event>): nat {
    if es == [] then 0
    else
      var front := es[..|es| - 1];
      ReceiptCount(m, w, front) + if Receipted(Run(m, w, front), es[|es| - 1]) then 1 else 0
  }

  // ---------- the shared ledger ----------

  lemma StepLedger(m: Mountpoint, w: World, e: Event)
    requires Ledger(m.codec, w.ledger)
    ensures var after := Step(m, w, e);
            && Ledger(m.codec, after.ledger)
            && |after.ledger| == |w.ledger| + (if Receipted(w, e) then 1 else 0)
            && w.ledger <= after.ledger
  {
    hide Ledger;
    var after := Step(m, w, e);
    if Receipted(w, e) {
      var r := after.ledger[|w.ledger|];
      assert after.ledger == w.ledger + [r];
      StampedExtends(m.codec, w.ledger, r);
    }
  }

  lemma StampedExtends(c: Codec, rs: seq<Receipt>, r: Receipt)
    requires Ledger(c, rs)
    requires r == Stamped(c, rs, r.subject, r.space, r.op, r.path, r.verdict, r.ts)
    ensures Ledger(c, rs + [r])
  {
    hide Payload, HashOk;
    LedgerGrows(c, rs, r);
  }

  /** Over every run, whichever views the calls go through: one ledger that `Verify` accepts, numbered
      without gaps, with exactly one receipt per governed call or commit, never rewriting an earlier one. */
  lemma {:induction false} RunLedger(m: Mountpoint, w: World, es: seq<Event>)
    requires Ledger(m.codec, w.ledger)
    ensures var end := Run(m, w, es);
            && Ledger(m.codec, end.ledger)
            && |end.ledger| == |w.ledger| + ReceiptCount(m, w, es)
            && w.ledger <= end.ledger
  {
    if es != [] {
      hide Ledger, Step, Receipted;
      var front := es[..|es| - 1];
      RunLedger(m, w, front);
      StepLedger(m, Run(m, w, front), es[|es| - 1]);
    }
  }

  lemma {:induction false} RunJoins(m: Mountpoint, w: World, es: seq<Event>, i: nat)
    requires i <= |es|
    ensures Run(m, w, es) == Run(m, Run(m, w, es[..i]), es[i..])
  {
    hide Step;
    if i < |es| {
      var n := |es| - 1;
      RunJoins(m, w, es[..n], i);
      SliceFacts(es, i);
    } else {
      TakeDrop(es, i);
    }
  }

  lemma SliceFacts(es: seq<Event>, i: nat)
    requires i < |es|
    ensures var n := |es| - 1;
            es[..n][..i] == es[..i] && es[i..][..|es[i..]| - 1] == es[..n][i..] && es[i..][|es[i..]| - 1] == es[n]
  {
  }

  /** Every copy of the entries taken during a run is a prefix of every later one. */
  lemma EntriesOnlyGrow(m: Mountpoint, files: Files, es: seq<Event>, i: nat, j: nat)
    requires i <= j <= |es|
    ensures Run(m, Start(files), es[..i]).ledger <= Run(m, Start(files), es[..j]).ledger
  {
    var w := Start(files);
    RunLedger(m, w, es[..i]);
    RunJoins(m, w, es[..j], i);
    assert es[..j][..i] == es[..i];
    RunLedger(m, Run(m, w, es[..i]), es[..j][i..]);
  }

  // ---------- nothing changes without leave ----------

  predicate CannotWrite(lease: Option<Lease>) { lease.None? || !lease.value.canWrite }

  predicate ThroughTheMount(e: Event) { e.Issue? || e.CommitVia? }

  const DENY: string := "deny: "

  lemma DenyVerdicts(c: Codec, space: string, lease: Option<Lease>, op: Op, path: string, now: int)
    ensures Check(lease, space, op, now).None? ==> Verdict(c, space, lease, op, path, now) == "allow"
    ensures !(DENY <= "allow") && forall s :: !(DENY <= "allow: snapshot " + s) && !(DENY <= "error: " + s)
  {
    assert "allow"[0] != DENY[0];
    forall s
      ensures !(DENY <= "allow: snapshot " + s) && !(DENY <= "error: " + s)
    {
      assert ("allow: snapshot " + s)[0] == 'a' && ("error: " + s)[0] == 'e' && DENY[0] == 'd';
    }
  }

  lemma DeniedIsNotAllowed(reason: string)
    ensures DENY + reason != "allow"
  {
    assert (DENY + reason)[0] == 'd';
  }

  /** A governed call's receipt says who did what, where and when, and whether it was allowed; what was
      not allowed had no effect, and a view comes of an allowed Chroot that the backend can serve. */
  lemma ReceiptSaysCall(m: Mountpoint, w: World, v: nat, call: Call, at: Clock)
    requires v < |w.views|
    ensures var after := Step(m, w, Issue(v, call, at));
            && |after.ledger| == |w.ledger| + 1
            && var r := after.ledger[|w.ledger|];
               && r.ts == at.stampedAt && r.space == m.space && r.op == OpOf(call) && r.path == call.path
               && r.subject == (if m.lease.Some? then m.lease.value.subject else "<no-lease>")
               && (r.verdict == "allow" <==> Check(m.lease, m.space, OpOf(call), at.checkedAt).None?)
               && (after.files == if r.verdict == "allow" then Effect(w.files, w.views[v].base, call).files else w.files)
               && after.store == w.store
               && (|after.views| > |w.views| <==> call.Chroot? && call.opens && r.verdict == "allow")
               && after.views == w.views + if call.Chroot? && call.opens && r.verdict == "allow"
                                           then [View(Under(w.views[v].base, call.path), false)] else []
  {
    hide Effect, DenialText;
    var d := Check(m.lease, m.space, OpOf(call), at.checkedAt);
    if d.Some? {
      DeniedIsNotAllowed(DenialText(m.codec, d.value, m.lease, m.space, OpOf(call), call.path));
    } else if call.Chroot? {
      ChrootAnswers(w.files, w.views[v].base, call);
    }
  }

  /** A commit goes through the views that have a snapshotter and does what a commit does; edits change the
      files and nothing else. */
  lemma EventsSay(m: Mountpoint, w: World, v: nat, purpose: string, at: Clock, fault: SnapFault, files: Files)
    ensures Step(m, w, Edit(files)) == w.(files := files)
    ensures v < |w.views| && w.views[v].snapping ==>
            var s := CommitStep(m.codec, m.space, m.lease, m.dir, w.ledger, w.files, w.store, purpose, at, fault);
            Step(m, w, CommitVia(v, purpose, at, fault)) == w.(ledger := s.ledger, store := s.store)
    ensures v >= |w.views| || !w.views[v].snapping ==> Step(m, w, CommitVia(v, purpose, at, fault)) == w
    ensures Start(files) == World([], files, map[], [View("", true)])
  {
    hide CommitStep;
  }

  lemma ChrootAnswers(t: Files, base: string, call: Call)
    requires call.Chroot?
    ensures Effect(t, base, call) == Backend(t, if call.opens then Done else Fails)
  {
  }

  /** Whatever a call or commit changes in the backend or the version store, its own receipt records a
      write-class operation that was not denied, under a lease that grants writing. */
  lemma EffectsAreReceipted(m: Mountpoint, w: World, e: Event)
    requires ThroughTheMount(e)
    requires Step(m, w, e).files != w.files || Step(m, w, e).store != w.store
    ensures !CannotWrite(m.lease)
    ensures var after := Step(m, w, e).ledger;
            |after| == |w.ledger| + 1 && IsWrite(after[|w.ledger|].op) && !(DENY <= after[|w.ledger|].verdict)
  {
    hide Effect, DenialText, SnapStep;
    var after := Step(m, w, e).ledger;
    match e {
      case Issue(v, call, at) =>
        if !IsWrite(OpOf(call)) {
          ReadsDoNotWrite(w.files, w.views[v].base, call);
        }
        DenyVerdicts(m.codec, m.space, m.lease, OpOf(call), call.path, at.checkedAt);
      case CommitVia(_, _, at, _) =>
        DenyVerdicts(m.codec, m.space, m.lease, OP_COMMIT, "/", at.checkedAt);
    }
  }

  /** Under a lease without write capability, or none, no run of calls and commits through any views
      changes the backend or the version store, whatever the flags. */
  lemma {:induction false} ReadOnlyRun(m: Mountpoint, w: World, es: seq<Event>)
    requires CannotWrite(m.lease)
    requires forall e :: e in es ==> ThroughTheMount(e)
    ensures Run(m, w, es).files == w.files && Run(m, w, es).store == w.store
  {
    if es != [] {
      hide Step;
      var front, last := es[..|es| - 1], es[|es| - 1];
      assert forall e :: e in front ==> e in es;
      ReadOnlyRun(m, w, front);
      var before := Run(m, w, front);
      if Step(m, before, last).files != before.files || Step(m, before, last).store != before.store {
        EffectsAreReceipted(m, before, last);
      }
    }
  }
}
