/** What the kernel sets hold over every run of the egress gate. */
module KernelRuns {
  import opened Egress
  import opened EgressRuns
  import opened GateStore
  import opened Json
  import opened Nft
  import opened Options
  import opened Text

  /** What the kernel should hold for these grants: every address and port, as `apply` writes them. */
  function Allowed(rows: seq<Row>): Sets { Sets(NormalAddrs(Addrs(rows)), Ports(rows, false), Ports(rows, true)) }

  predicate Within(a: Sets, b: Sets) { a.addrs <= b.addrs && a.tcp <= b.tcp && a.udp <= b.udp }

  lemma AllowedMonotone(a: seq<Row>, b: seq<Row>)
    requires forall g :: g in a ==> g in b
    ensures Within(Allowed(a), Allowed(b))
  {
  }

  /** A successful apply puts exactly the live grants' addresses and ports in the kernel. */
  lemma ApplySetsKernel(g: Gate, at: Attempt)
    requires ApplyGate(g, at).reply.Done?
    ensures ApplyGate(g, at).gate.kernel.elems == Allowed(Live(g.tables.grants, at.now))
    ensures ApplyGate(g, at).gate.tables == g.tables
  {
    ActiveNumbers(g.tables, at.now);
  }

  /** Element by element: the addresses are the live grants' targets, normalised by the store and again by
      the apply, blank ones left out, and the ports are printed under their grant's protocol. */
  lemma AppliedHas(g: Gate, at: Attempt, x: string)
    requires ApplyGate(g, at).reply.Done?
    ensures var elems := ApplyGate(g, at).gate.kernel.elems;
            && (x in elems.addrs <==>
                exists r, t :: r in g.tables.grants && at.now < r.exp && t in r.targets
                  && !Blank(DropSlash32(t)) && x == DropSlash32(DropSlash32(t)))
            && (x in elems.tcp <==>
                exists r, p :: r in g.tables.grants && at.now < r.exp && p in r.ports && r.proto != "udp" && x == Decimal(p))
            && (x in elems.udp <==>
                exists r, p :: r in g.tables.grants && at.now < r.exp && p in r.ports && r.proto == "udp" && x == Decimal(p))
  {
    var live := Live(g.tables.grants, at.now);
    ApplySetsKernel(g, at);
    LiveMembers(g.tables.grants, at.now);
    hide Live, ApplyGate, Blank, DropSlash32, Decimal;
    AllowedAddrsHas(live, x);
    PortsHas(live, false, x);
    PortsHas(live, true, x);
  }

  lemma AllowedAddrsHas(rows: seq<Row>, x: string)
    ensures x in Allowed(rows).addrs <==>
            exists r, t :: r in rows && t in r.targets && !Blank(DropSlash32(t)) && x == DropSlash32(DropSlash32(t))
  {
    hide Blank, DropSlash32;
    if r, t :| r in rows && t in r.targets && !Blank(DropSlash32(t)) && x == DropSlash32(DropSlash32(t)) {
      assert DropSlash32(t) in Addrs(rows);
    }
  }

  lemma PortsHas(rows: seq<Row>, udp: bool, x: string)
    ensures x in Ports(rows, udp) <==> exists r, p :: r in rows && p in r.ports && (r.proto == "udp") == udp && x == Decimal(p)
  {
    hide Decimal;
  }

  /** The apply this operation carries out, if it comes to that. */
  function ApplyOf(op: Op, s: Stepped): Option<Attempt> {
    match op
    case InstallOp(_, _, apply) => if s.reply.Failed? then None else apply
    case PruneOp(_, apply) => apply
    case ApplyOp(at) => Some(at)
    case VerifyOp(_, _) => None
  }

  /** The state an operation's apply starts from. */
  function BeforeApply(g: Gate, op: Op, pr: Printer): Stepped {
    match op
    case InstallOp(q, c, _) => InstallGate(g, q, c)
    case PruneOp(now, _) => PruneGate(g, now)
    case _ => Stepped(g, Done)
  }

  /** When the operation applied sets to the kernel; None if it did not. */
  function AppliedAt(g: Gate, op: Op, pr: Printer): Option<int> {
    var before := BeforeApply(g, op, pr);
    var apply := ApplyOf(op, before);
    if apply.Some? && ApplyGate(before.gate, apply.value).reply.Done? then Some(apply.value.now) else None
  }

  function LastApplied(g: Gate, ops: seq<Op>, pr: Printer): Option<int> {
    if ops == [] then None
    else
      var n := |ops| - 1;
      var here := AppliedAt(Run(g, ops[..n], pr), ops[n], pr);
      if here.Some? then here else LastApplied(g, ops[..n], pr)
  }

  lemma StepKernel(g: Gate, op: Op, pr: Printer)
    ensures var at, s := AppliedAt(g, op, pr), Step(g, op, pr).gate;
            && s.kernel.elems == (if at.Some? then Allowed(Live(s.tables.grants, at.value)) else g.kernel.elems)
            && s.tables == BeforeApply(g, op, pr).gate.tables
  {
    hide ApplyGate, VerifyStep, InstallStep, Allowed, Live;
    var before := BeforeApply(g, op, pr);
    var apply := ApplyOf(op, before);
    if apply.Some? {
      ApplyOutcome(before.gate, apply.value);
      if ApplyGate(before.gate, apply.value).reply.Done? {
        ApplySetsKernel(before.gate, apply.value);
      }
    }
  }

  lemma ApplyOutcome(g: Gate, at: Attempt)
    ensures var a := ApplyGate(g, at);
            && (a.reply.Failed? ==> a.gate == g)
            && (a.reply.Done? || a.reply.Failed?)
            && a.gate.tables == g.tables
  {
  }

  // ---------- provenance ----------

  predicate Recorded(g: Gate) { forall r :: r in g.tables.grants ==> Undated(r) in Accepted(g.audit) }

  lemma StepRecords(g: Gate, op: Op, pr: Printer)
    requires Recorded(g)
    ensures Recorded(Step(g, op, pr).gate)
    ensures forall r :: r in Accepted(g.audit) ==> r in Accepted(Step(g, op, pr).gate.audit)
  {
    hide ActiveSets, ApplyStep, VerifyStep, Accepted;
    var before := BeforeApply(g, op, pr).gate;
    BeforeRecords(g, op, pr);
    var apply := ApplyOf(op, BeforeApply(g, op, pr));
    if apply.Some? {
      AcceptedGrows(before.audit, SetsApplied(ActiveSets(before.tables, apply.value.now)));
    }
    if op.VerifyOp? {
      AcceptedGrows(g.audit, SetsVerified(ActiveSets(g.tables, op.now)));
    }
  }

  lemma BeforeRecords(g: Gate, op: Op, pr: Printer)
    requires Recorded(g)
    ensures Recorded(BeforeApply(g, op, pr).gate)
    ensures forall r :: r in Accepted(g.audit) ==> r in Accepted(BeforeApply(g, op, pr).gate.audit)
  {
    match op {
      case InstallOp(q, c, _) =>
        var r := InstallStep(g.tables, q, c);
        if r.outcome.Installed? {
          AcceptedGrows(g.audit, InstalledRecord(r.outcome.grant));
        }
      case PruneOp(now, _) =>
        LiveMembers(g.tables.grants, now);
        AcceptedGrows(g.audit, GrantPruned(|g.tables.grants| - |Live(g.tables.grants, now)|));
      case _ =>
    }
  }

  lemma AllowedOfUndated(rows: seq<Row>, all: seq<Row>, t: int)
    requires forall r :: r in rows ==> Undated(r) in all
    ensures Within(Allowed(Live(rows, t)), Allowed(Live(all, t)))
  {
    hide Allowed, Addrs, Ports;
    var live := Live(rows, t);
    LiveMembers(rows, t);
    LiveMembers(all, t);
    AllUndatedMembers(live);
    UndatedSets(live);
    assert Allowed(live) == Allowed(AllUndated(live)) by {
      SameAllowed(live, AllUndated(live));
    }
    AllowedMonotone(AllUndated(live), Live(all, t));
  }

  lemma SameAllowed(a: seq<Row>, b: seq<Row>)
    requires Addrs(a) == Addrs(b) && forall udp :: Ports(a, udp) == Ports(b, udp)
    ensures Allowed(a) == Allowed(b)
  {
  }

  /** How far into the run the last successful apply is: the length of the prefix it ends. */
  function LastApplying(g: Gate, ops: seq<Op>, pr: Printer): (n: nat)
    ensures n <= |ops|
  {
    if ops == [] then 0
    else
      var n := |ops| - 1;
      if AppliedAt(Run(g, ops[..n], pr), ops[n], pr).Some? then |ops| else LastApplying(g, ops[..n], pr)
  }

  /** At any point of any run, the kernel sets are exactly what the grants live at the last successful
      apply allowed, in the tables as they were right after it; before any apply they are as they were
      found. Clocks may go anywhere. */
  lemma {:induction false} KernelIsLastApply(g: Gate, ops: seq<Op>, pr: Printer)
    ensures var n, at, end := LastApplying(g, ops, pr), LastApplied(g, ops, pr), Run(g, ops, pr);
            && (at.None? <==> n == 0)
            && (at.None? ==> end.kernel.elems == g.kernel.elems)
            && (at.Some? ==> end.kernel.elems == Allowed(Live(Run(g, ops[..n], pr).tables.grants, at.value)))
  {
    hide Live, Allowed, Step, AppliedAt;
    if ops != [] {
      var n := |ops| - 1;
      KernelIsLastApply(g, ops[..n], pr);
      StepKernel(Run(g, ops[..n], pr), ops[n], pr);
      assert ops[..|ops|] == ops;
      var m := LastApplying(g, ops[..n], pr);
      assert ops[..n][..m] == ops[..m];
    }
  }

  lemma {:induction false} RunRecords(k: Kernel, ops: seq<Op>, pr: Printer)
    ensures Recorded(Run(Fresh(k), ops, pr))
  {
    hide Recorded, Step;
    if ops != [] {
      var n := |ops| - 1;
      RunRecords(k, ops[..n], pr);
      StepRecords(Run(Fresh(k), ops[..n], pr), ops[n], pr);
    } else {
      FreshRecords(k);
    }
  }

  lemma FreshRecords(k: Kernel)
    ensures Recorded(Fresh(k))
  {
  }

  /** Every element of the kernel sets comes from an installation that had been recorded, and was
      unexpired, when sets were last applied: nothing accepted since accounts for any. */
  lemma KernelProvenance(k: Kernel, ops: seq<Op>, pr: Printer)
    ensures var n, at, end := LastApplying(Fresh(k), ops, pr), LastApplied(Fresh(k), ops, pr), Run(Fresh(k), ops, pr);
            && (at.None? ==> end.kernel.elems == k.elems)
            && (at.Some? ==> Within(end.kernel.elems, Allowed(Live(Accepted(Run(Fresh(k), ops[..n], pr).audit), at.value))))
  {
    hide Accepted, Live, Allowed, Run, LastApplying, LastApplied;
    var n, at := LastApplying(Fresh(k), ops, pr), LastApplied(Fresh(k), ops, pr);
    KernelIsLastApply(Fresh(k), ops, pr);
    if at.Some? {
      var then_ := Run(Fresh(k), ops[..n], pr);
      RunRecords(k, ops[..n], pr);
      AllowedOfUndated(then_.tables.grants, Accepted(then_.audit), at.value);
    }
  }

  // ---------- what is active stays allowed ----------

  /** From here on, no grant is accepted and no apply looks past `u`. */
  predicate Quiet(g: Gate, ops: seq<Op>, u: int, pr: Printer) {
    ops == []
    || (var n := |ops| - 1;
        var h := Run(g, ops[..n], pr);
        && Quiet(g, ops[..n], u, pr)
        && (ops[n].InstallOp? ==> !InstallStep(h.tables, ops[n].q, ops[n].clock).outcome.Installed?)
        && (AppliedAt(h, ops[n], pr).Some? ==> AppliedAt(h, ops[n], pr).value <= u))
  }

  predicate Covered(g: Gate, u: int) { Within(Allowed(Live(g.tables.grants, u)), g.kernel.elems) }

  lemma LaterIsLess(a: seq<Row>, b: seq<Row>, t: int, u: int)
    requires t <= u && forall r :: r in b ==> r in a
    ensures Within(Allowed(Live(b, u)), Allowed(Live(a, t)))
  {
    LiveMembers(b, u);
    LiveMembers(a, t);
    AllowedMonotone(Live(b, u), Live(a, t));
  }

  lemma StepCovered(g: Gate, op: Op, u: int, pr: Printer)
    requires Covered(g, u)
    requires op.InstallOp? ==> !InstallStep(g.tables, op.q, op.clock).outcome.Installed?
    requires AppliedAt(g, op, pr).Some? ==> AppliedAt(g, op, pr).value <= u
    ensures Covered(Step(g, op, pr).gate, u)
  {
    hide AppliedAt, Step, Allowed, Live;
    var s, at := Step(g, op, pr).gate, AppliedAt(g, op, pr);
    StepKernel(g, op, pr);
    FewerGrants(g, op, pr);
    if at.Some? {
      LaterIsLess(s.tables.grants, s.tables.grants, at.value, u);
    } else {
      LaterIsLess(g.tables.grants, s.tables.grants, u, u);
    }
  }

  lemma FewerGrants(g: Gate, op: Op, pr: Printer)
    requires op.InstallOp? ==> !InstallStep(g.tables, op.q, op.clock).outcome.Installed?
    ensures forall r :: r in BeforeApply(g, op, pr).gate.tables.grants ==> r in g.tables.grants
  {
    if op.PruneOp? {
      LiveMembers(g.tables.grants, op.now);
    }
  }

  lemma {:induction false} QuietCovered(g: Gate, ops: seq<Op>, u: int, pr: Printer)
    requires Covered(g, u) && Quiet(g, ops, u, pr)
    ensures Covered(Run(g, ops, pr), u)
  {
    hide Covered, Step, AppliedAt, InstallStep;
    if ops != [] {
      var n := |ops| - 1;
      QuietCovered(g, ops[..n], u, pr);
      StepCovered(Run(g, ops[..n], pr), ops[n], u, pr);
    }
  }

  /** Once sets have been applied, whatever is active at a later time is in the kernel, until a grant is
      accepted: prunes, rejected installations, failures and further applies do not take it out. */
  lemma ActiveStaysAllowed(g: Gate, op: Op, rest: seq<Op>, u: int, pr: Printer)
    requires AppliedAt(g, op, pr).Some? && AppliedAt(g, op, pr).value <= u
    requires Quiet(Step(g, op, pr).gate, rest, u, pr)
    ensures var end := Run(Step(g, op, pr).gate, rest, pr);
            var active := ActiveSets(end.tables, u);
            Within(Sets(NormalAddrs(active.addrs), active.tcp, active.udp), end.kernel.elems)
  {
    hide Step, AppliedAt, Quiet, Live, Run;
    var s := Step(g, op, pr).gate;
    StepKernel(g, op, pr);
    LaterIsLess(s.tables.grants, s.tables.grants, AppliedAt(g, op, pr).value, u);
    QuietCovered(s, rest, u, pr);
  }

  // ---------- apply, then verify ----------

  lemma {:induction false} SameLive(rows: seq<Row>, t: int, u: int)
    requires forall r :: r in rows ==> (r.exp > t <==> r.exp > u)
    ensures Live(rows, t) == Live(rows, u)
  {
    if rows != [] {
      var n := |rows| - 1;
      assert forall r :: r in rows[..n] ==> r in rows;
      SameLive(rows[..n], t, u);
      assert rows[n] in rows;
    }
  }

  /** After a successful apply, a verification before any grant expires succeeds exactly when every live
      grant's targets are settled once normalised and its ports are not negative - whichever of the
      two listings the kernel answers with. */
  lemma ApplyThenVerify(g: Gate, at: Attempt, u: int, ls: Listings, pr: Printer)
    requires ApplyGate(g, at).reply.Done?
    requires ReportAll(ApplyGate(g, at).gate.kernel, ls, pr)
    requires forall r :: r in g.tables.grants ==> (r.exp > at.now <==> r.exp > u)
    ensures VerifyGate(ApplyGate(g, at).gate, u, ls, pr).reply.Done? <==>
            forall r :: r in g.tables.grants && r.exp > u ==>
              && (forall t :: t in r.targets ==> Settled(DropSlash32(t)))
              && (forall p :: p in r.ports ==> p >= 0)
  {
    hide Live, ReportAll, VerifyStep, ApplyStep, AllDecimals, AllNumbers, NormalPorts, Addrs, Ports, Settled, DigitString;
    var want := ActiveSets(g.tables, u);
    SameLive(g.tables.grants, at.now, u);
    ActiveNumbers(g.tables, u);
    ApplyThenVerifyIff(g.kernel, want, at.env, ls, pr);
    LiveMembers(g.tables.grants, u);
    AddrsSettle(Live(g.tables.grants, u));
    PortsSettle(Live(g.tables.grants, u));
  }

  /** So for grants as operators write them, apply-then-verify always succeeds. */
  lemma OrdinaryGrantsVerify(g: Gate, at: Attempt, u: int, ls: Listings, pr: Printer)
    requires ApplyGate(g, at).reply.Done?
    requires ReportAll(ApplyGate(g, at).gate.kernel, ls, pr)
    requires forall r :: r in g.tables.grants ==> (r.exp > at.now <==> r.exp > u)
    requires forall r :: r in g.tables.grants && r.exp > u ==>
               && (forall t :: t in r.targets ==> Ordinary(t))
               && (forall p :: p in r.ports ==> p >= 0)
    ensures VerifyGate(ApplyGate(g, at).gate, u, ls, pr).reply.Done?
  {
    hide ApplyGate, VerifyGate, ReportAll, Settled, Ordinary;
    forall t | Ordinary(t)
      ensures Settled(DropSlash32(t))
    {
      OrdinaryTargetSettles(t);
    }
    ApplyThenVerify(g, at, u, ls, pr);
  }

  /** Everything live in the tables survives the trip through the kernel. */
  predicate Survives(s: Tables, now: int) {
    AllSettled(Live(s.grants, now)) && NoNegatives(Live(s.grants, now))
  }

  /** What verification sees of a kernel holding what surviving grants allow is their active sets. */
  lemma ObservedIsActive(s: Tables, now: int)
    requires Survives(s, now)
    ensures Observed(Allowed(Live(s.grants, now))) == ActiveSets(s, now)
  {
    hide Live, SeenAddrs, SeenPorts, NormalAddrs, NormalPorts, Tripped, Addrs, Ports, AllSettled, NoNegatives, Settled,
         DigitString, AllDecimals, AllNumbers;
    var live := Live(s.grants, now);
    AddrsSettle(live);
    PortsSettle(live);
    TrippedIsSeen(Addrs(live));
    TrippedIff(Addrs(live));
    ActiveNumbers(s, now);
    PortsSeen(Ports(live, false));
    PortsSeen(Ports(live, true));
  }

  /** Whatever has happened since - prunes, rejected and accepted installations, failed applies - a
      verification succeeds, when the last successful apply was of surviving grants, exactly when the
      baseline is there and what is active now is what was active then. */
  lemma VerifyAfterRunIff(g: Gate, ops: seq<Op>, u: int, ls: Listings, pr: Printer)
    requires LastApplied(g, ops, pr).Some?
    requires Survives(Run(g, ops[..LastApplying(g, ops, pr)], pr).tables, LastApplied(g, ops, pr).value)
    requires ReportAll(Run(g, ops, pr).kernel, ls, pr)
    ensures var end, then_ := Run(g, ops, pr), Run(g, ops[..LastApplying(g, ops, pr)], pr);
            VerifyGate(end, u, ls, pr).reply.Done? <==>
            Baseline(end.kernel) && ActiveSets(end.tables, u) == ActiveSets(then_.tables, LastApplied(g, ops, pr).value)
  {
    hide Run, LastApplying, LastApplied, Live, Allowed, Survives, VerifyStep, ReportAll, Observed, Baseline, ActiveSets;
    var end, at := Run(g, ops, pr), LastApplied(g, ops, pr);
    KernelIsLastApply(g, ops, pr);
    ObservedIsActive(Run(g, ops[..LastApplying(g, ops, pr)], pr).tables, at.value);
    VerifyIff(end.kernel, ActiveSets(end.tables, u), ls, pr);
  }

  predicate AllSettled(rows: seq<Row>) { forall r, t :: r in rows && t in r.targets ==> Settled(DropSlash32(t)) }

  predicate NoNegatives(rows: seq<Row>) { forall r, p :: r in rows && p in r.ports ==> p >= 0 }

  lemma AddrsSettle(rows: seq<Row>)
    ensures AllSettled(rows) ==> forall a :: a in Addrs(rows) ==> Settled(a)
    ensures AllSettled(rows) <== forall a :: a in Addrs(rows) ==> Settled(a)
  {
  }

  lemma PortsSettle(rows: seq<Row>)
    ensures NoNegatives(rows) ==> forall p :: p in Ports(rows, false) + Ports(rows, true) ==> DigitString(p)
    ensures NoNegatives(rows) <== forall p :: p in Ports(rows, false) + Ports(rows, true) ==> DigitString(p)
  {
    hide DigitString;
    forall p: int {
      DecimalIsDigits(p);
    }
    if r, p :| r in rows && p in r.ports && p < 0 {
      assert Decimal(p) in Ports(rows, r.proto == "udp");
    }
  }
}
