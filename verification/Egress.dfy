/** The egress gate: the order in which each operation touches the tables, the kernel sets and the audit log. */
module Egress {
  import opened GateStore
  import opened Json
  import opened Nft
  import opened Options

  datatype Record =
    | GrantInstalled(tokenId: string, nonce: string, exp: int, proto: string, targets: seq<string>, ports: seq<int>)
    | GrantPruned(removed: nat)
    | SetsApplied(sets: Sets)
    | SetsVerified(sets: Sets)

  datatype Gate = Gate(tables: Tables, kernel: Kernel, audit: seq<Record>)

  datatype Failure = ExpiredGrant | ReplayDetected | DuplicateGrant | KernelFailed(error: Error)

  /** When `apply` computes the active sets, and what the kernel says. */
  datatype Attempt = Attempt(now: int, env: Env)

  datatype Op =
    | InstallOp(q: Request, clock: Clock, apply: Option<Attempt>)
    | PruneOp(now: int, apply: Option<Attempt>)
    | ApplyOp(attempt: Attempt)
    | VerifyOp(now: int, listings: Listings)

  datatype Reply = Done | Removed(n: nat) | Failed(failure: Failure)

  datatype Stepped = Stepped(gate: Gate, reply: Reply)

  function Logged(g: Gate, r: Record): Gate { g.(audit := g.audit + [r]) }

  function InstalledRecord(r: Row): Record {
    GrantInstalled(r.tokenId, r.nonce, r.exp, r.proto, r.targets, r.ports)
  }

  function ApplyGate(g: Gate, at: Attempt): Stepped {
    var want := ActiveSets(g.tables, at.now);
    var r := ApplyStep(g.kernel, want, at.env);
    if !at.env.program then Stepped(g, Failed(KernelFailed(ProgramMissing)))
    else if !Baseline(g.kernel) then Stepped(g, Failed(KernelFailed(BaselineMissing)))
    else if r.err.Some? then Stepped(g, Failed(KernelFailed(r.err.value)))
    else Stepped(Logged(g.(kernel := r.kernel), SetsApplied(want)), Done)
  }

  /** What `apply=True` adds to an operation that has already committed. */
  function ThenApply(s: Stepped, apply: Option<Attempt>): Stepped {
    if apply.None? then s
    else
      var a := ApplyGate(s.gate, apply.value);
      if a.reply.Failed? then a else a.(reply := s.reply)
  }

  function InstallGate(g: Gate, q: Request, c: Clock): Stepped {
    var r := InstallStep(g.tables, q, c);
    match r.outcome
    case Expired => Stepped(g, Failed(ExpiredGrant))
    case Replayed => Stepped(g, Failed(ReplayDetected))
    case Conflict => Stepped(g, Failed(DuplicateGrant))
    case Installed(row) => Stepped(Logged(g.(tables := r.tables), InstalledRecord(row)), Done)
  }

  function PruneGate(g: Gate, now: int): Stepped {
    var tables := PruneStep(g.tables, now);
    var removed := |g.tables.grants| - |tables.grants|;
    Stepped(Logged(g.(tables := tables), GrantPruned(removed)), Removed(removed))
  }

  function VerifyGate(g: Gate, now: int, ls: Listings, pr: Printer): Stepped {
    var want := ActiveSets(g.tables, now);
    var err := VerifyStep(g.kernel, want, ls, pr);
    if err.Some? then Stepped(g, Failed(KernelFailed(err.value))) else Stepped(Logged(g, SetsVerified(want)), Done)
  }

  function Step(g: Gate, op: Op, pr: Printer): Stepped {
    match op
    case InstallOp(q, c, apply) =>
      var s := InstallGate(g, q, c);
      if s.reply.Failed? then s else ThenApply(s, apply)
    case PruneOp(now, apply) => ThenApply(PruneGate(g, now), apply)
    case ApplyOp(at) => ApplyGate(g, at)
    case VerifyOp(now, ls) => VerifyGate(g, now, ls, pr)
  }

  class EgressGate {
    const store: Store
    const kernel: KernelSets
    const pr: Printer
    var audit: seq<Record>

    constructor (store: Store, kernel: KernelSets, pr: Printer)
      ensures this.store == store && this.kernel == kernel && this.pr == pr && audit == []
    {
      this.store, this.kernel, this.pr, audit := store, kernel, pr, [];
    }

    function State(): Gate
      reads this, store, kernel
    {
      Gate(store.Contents(), kernel.state, audit)
    }

    method Append(r: Record)
      modifies `audit
      ensures State() == Logged(old(State()), r)
    {
      audit := audit + [r];
    }

    method Install(q: Request, c: Clock, apply: Option<Attempt>) returns (reply: Reply)
      modifies store, kernel, `audit
      ensures Stepped(State(), reply) == Step(old(State()), InstallOp(q, c, apply), pr)
    {
      var outcome := store.InstallGrant(q, c);
      match outcome {
        case Expired => return Failed(ExpiredGrant);
        case Replayed => return Failed(ReplayDetected);
        case Conflict => return Failed(DuplicateGrant);
        case Installed(row) => Append(InstalledRecord(row));
      }
      reply := Done;
      if apply.Some? {
        reply := Apply(apply.value);
      }
    }

    method Prune(now: int, apply: Option<Attempt>) returns (reply: Reply)
      modifies store, kernel, `audit
      ensures Stepped(State(), reply) == Step(old(State()), PruneOp(now, apply), pr)
    {
      var removed := store.PruneExpired(now);
      Append(GrantPruned(removed));
      reply := Removed(removed);
      if apply.Some? {
        var applied := Apply(apply.value);
        if applied.Failed? {
          reply := applied;
        }
      }
    }

    method Apply(at: Attempt) returns (reply: Reply)
      modifies kernel, `audit
      ensures Stepped(State(), reply) == Step(old(State()), ApplyOp(at), pr)
      ensures !reply.Removed?
    {
      if !at.env.program {
        return Failed(KernelFailed(ProgramMissing));
      }
      if !Baseline(kernel.state) {
        return Failed(KernelFailed(BaselineMissing));
      }
      var want := store.ComputeActiveSets(at.now);
      var err := kernel.ApplySets(want, at.env);
      if err.Some? {
        return Failed(KernelFailed(err.value));
      }
      Append(SetsApplied(want));
      return Done;
    }

    method Verify(now: int, ls: Listings) returns (reply: Reply)
      modifies `audit
      ensures Stepped(State(), reply) == Step(old(State()), VerifyOp(now, ls), pr)
    {
      if !ls.program {
        return Failed(KernelFailed(ProgramMissing));
      }
      if !Baseline(kernel.state) {
        return Failed(KernelFailed(BaselineMissing));
      }
      var want := store.ComputeActiveSets(now);
      var err := VerifyStep(kernel.state, want, ls, pr);
      if err.Some? {
        return Failed(KernelFailed(err.value));
      }
      Append(SetsVerified(want));
      return Done;
    }

    /** The active sets, for display. */
    method Snapshot(now: int) returns (active: Sets)
      ensures active == ActiveSets(State().tables, now)
    {
      active := store.ComputeActiveSets(now);
    }
  }

  /** The state after a run, oldest operation first. */
  function Run(g: Gate, ops: seq<Op>, pr: Printer): Gate {
    if ops == [] then g else Step(Run(g, ops[..|ops| - 1], pr), ops[|ops| - 1], pr).gate
  }

  // ---------- what a failure leaves behind ----------

  /** The same operation without its `apply`; None for operations that are nothing else. */
  function Core(op: Op): Option<Op> {
    match op
    case InstallOp(q, c, _) => Some(InstallOp(q, c, None))
    case PruneOp(now, _) => Some(PruneOp(now, None))
    case _ => None
  }

  lemma ActiveNumbers(s: Tables, now: int)
    ensures var want := ActiveSets(s, now);
            AllDecimals(want.tcp) && AllDecimals(want.udp) && AllNumbers(want.tcp) && AllNumbers(want.udp)
            && NormalPorts(want.tcp) == want.tcp && NormalPorts(want.udp) == want.udp
  {
    var want := ActiveSets(s, now);
    assert AllDecimals(want.tcp) && AllDecimals(want.udp);
    DecimalsAreNumbers(want.tcp);
    DecimalsAreNumbers(want.udp);
  }

  /** An apply goes through: the nft program can be run, the baseline is there, the gate runs as root and
      the script is accepted. */
  predicate Applies(k: Kernel, env: Env) { env.program && Baseline(k) && env.root && env.accepts }

  /** The tables take the operation: a prune, or an unexpired installation of a pair not seen before. */
  predicate Commits(g: Gate, op: Op) {
    match op
    case InstallOp(q, c, _) =>
      var k := (q.tokenId, q.nonce);
      q.exp > c.checkedAt && k !in g.tables.replay && !HasKey(g.tables.grants, k)
    case PruneOp(_, _) => true
    case _ => false
  }

  lemma ApplyGateIff(g: Gate, at: Attempt)
    ensures var a := ApplyGate(g, at);
            && (a.reply.Failed? <==> !Applies(g.kernel, at.env))
            && (a.reply.Failed? ==> a.gate == g && a.reply.failure.KernelFailed? && a.reply.failure != KernelFailed(NotANumber))
            && (a.reply == Failed(KernelFailed(ProgramMissing)) <==> !at.env.program)
  {
    ActiveNumbers(g.tables, at.now);
  }

  /** The tables' part of an operation always leaves a record when it commits. */
  lemma CoreIff(g: Gate, op: Op, pr: Printer)
    requires Core(op).Some?
    ensures var s := Step(g, Core(op).value, pr);
            && (s.reply.Failed? <==> !Commits(g, op))
            && (s.reply.Failed? ==> s.gate == g && !s.reply.failure.KernelFailed?)
            && (!s.reply.Failed? ==> |s.gate.audit| == |g.audit| + 1)
            && s.gate.kernel == g.kernel
  {
  }

  /** A failing operation never changes the kernel sets. It fails having changed the gate exactly when
      the tables take it and its apply cannot go through, which a caller can tell beforehand; the gate
      is then as the same operation without its apply leaves it, and otherwise as it was. */
  lemma FailureLeaves(g: Gate, op: Op, pr: Printer)
    ensures var s := Step(g, op, pr);
            && (s.reply.Failed? && s.gate != g <==>
                Commits(g, op) && op.apply.Some? && !Applies(g.kernel, op.apply.value.env))
            && (s.reply.Failed? ==>
                && s.gate.kernel == g.kernel
                && (!s.reply.failure.KernelFailed? ==> s.gate == g)
                && (s.reply.failure.KernelFailed? ==> s.gate == if Core(op).Some? then Step(g, Core(op).value, pr).gate else g)
                && s.reply.failure != KernelFailed(NotANumber))
  {
    hide ApplyGate, InstallGate, PruneGate, Commits, Applies;
    if Core(op).Some? {
      CoreIff(g, op, pr);
      if op.apply.Some? {
        ApplyGateIff(Step(g, Core(op).value, pr).gate, op.apply.value);
      }
    } else if op.ApplyOp? {
      ApplyGateIff(g, op.attempt);
    }
    OnlyCommits(g, op);
  }

  lemma OnlyCommits(g: Gate, op: Op)
    ensures Commits(g, op) ==> Core(op).Some?
    ensures op.PruneOp? ==> Commits(g, op)
  {
  }

  // ---------- what each operation answers and records ----------

  /** An apply answers with the first thing that stands in its way - the program, the baseline, root, the
      kernel - and otherwise writes the active sets of its own reading of the clock and records them. */
  lemma ApplySays(g: Gate, at: Attempt, pr: Printer)
    ensures var s := Step(g, ApplyOp(at), pr);
            && (s.reply == Failed(KernelFailed(ProgramMissing)) <==> !at.env.program)
            && (s.reply == Failed(KernelFailed(BaselineMissing)) <==> at.env.program && !BaselineThere(g.kernel))
            && (s.reply == Failed(KernelFailed(RootRequired)) <==>
                at.env.program && BaselineThere(g.kernel) && !at.env.root)
            && (s.reply == Failed(KernelFailed(NftFailed)) <==>
                at.env.program && BaselineThere(g.kernel) && at.env.root && !at.env.accepts)
            && (s.reply == Done <==> at.env.program && BaselineThere(g.kernel) && at.env.root && at.env.accepts)
            && s.gate.tables == g.tables
            && s.gate.audit == g.audit + (if s.reply == Done then [SetsApplied(ActiveSets(g.tables, at.now))] else [])
            && s.gate.kernel.table == g.kernel.table && s.gate.kernel.sets == g.kernel.sets && s.gate.kernel.chain == g.kernel.chain
  {
    hide ActiveSets, NormalAddrs, AllNumbers, NormalPorts, AllDecimals;
    ActiveNumbers(g.tables, at.now);
  }

  /** A verification answers with success, and records the active sets, exactly when the program runs, the
      baseline is there, each set is listed, and the listed sets, normalised, are the active sets; it
      names a missing program or baseline and calls every other failure the kernel's. */
  lemma VerifySays(g: Gate, now: int, ls: Listings, pr: Printer)
    ensures var s, want := Step(g, VerifyOp(now, ls), pr), ActiveSets(g.tables, now);
            && (s.reply == Done <==>
                && ls.program && BaselineThere(g.kernel)
                && exists v4, tcp, udp :: AllAnswer(ls, pr, v4, tcp, udp)
                     && ShownAddrs(v4) == want.addrs && ShownPorts(tcp) == want.tcp && ShownPorts(udp) == want.udp)
            && (s.reply == Failed(KernelFailed(ProgramMissing)) <==> !ls.program)
            && (s.reply == Failed(KernelFailed(BaselineMissing)) <==> ls.program && !BaselineThere(g.kernel))
            && (s.reply.Failed? ==> s.reply.failure in {KernelFailed(ProgramMissing), KernelFailed(BaselineMissing), KernelFailed(NftFailed)})
            && s.gate == (if s.reply == Done then g.(audit := g.audit + [SetsVerified(want)]) else g)
  {
    hide VerifyStep, ActiveSets, AllAnswer, ShownAddrs, ShownPorts, BaselineThere;
    VerifyStepIff(g.kernel, ActiveSets(g.tables, now), ls, pr);
  }

  /** An installation without apply answers with the reason the tables refuse it, and otherwise records
      what was asked. */
  lemma InstallGateSays(g: Gate, q: Request, c: Clock, pr: Printer)
    ensures var s, r := Step(g, InstallOp(q, c, None), pr), InstallStep(g.tables, q, c);
            && (s.reply == Failed(ExpiredGrant) <==> q.exp <= c.checkedAt)
            && (s.reply == Failed(ReplayDetected) <==> q.exp > c.checkedAt && (q.tokenId, q.nonce) in g.tables.replay)
            && s.reply in {Done, Failed(ExpiredGrant), Failed(ReplayDetected), Failed(DuplicateGrant)}
            && s.gate.kernel == g.kernel && s.gate.tables == r.tables
            && (s.reply != Done ==> s.gate == g)
            && (s.reply == Done ==>
                && |s.gate.audit| == |g.audit| + 1 && s.gate.audit[..|g.audit|] == g.audit
                && var a := s.gate.audit[|g.audit|];
                   && a.GrantInstalled? && a.tokenId == q.tokenId && a.nonce == q.nonce && a.exp == q.exp
                   && a.targets == q.targets && a.ports == q.ports && a.proto == ProtoOf(q.proto))
  {
    hide ProtoOf, SameLetters, HasKey;
    InstallSays(g.tables, q, c);
  }

  /** A prune without apply takes exactly the expired grants, answers how many there were and records it. */
  lemma PruneGateSays(g: Gate, now: int, pr: Printer)
    ensures var s, n := Step(g, PruneOp(now, None), pr), ExpiredCount(g.tables.grants, now);
            && s.reply == Removed(n) && s.gate.audit == g.audit + [GrantPruned(n)]
            && s.gate.kernel == g.kernel && s.gate.tables.replay == g.tables.replay
            && (forall r :: r in s.gate.tables.grants <==> r in g.tables.grants && now < r.exp)
            && |s.gate.tables.grants| + n == |g.tables.grants|
  {
    hide Live, ExpiredCount;
    LiveAndExpired(g.tables.grants, now);
    LiveMembers(g.tables.grants, now);
  }

  /** With an apply, an operation that commits is followed by that apply: its failure is the answer, and
      otherwise the operation's own answer is. */
  lemma ApplyFollows(g: Gate, op: Op, at: Attempt, pr: Printer)
    requires (op.InstallOp? || op.PruneOp?) && op.apply == None
    ensures var first, both := Step(g, op, pr), Step(g, op.(apply := Some(at)), pr);
            if first.reply.Failed? then both == first
            else
              var then_ := Step(first.gate, ApplyOp(at), pr);
              both == Stepped(then_.gate, if then_.reply.Failed? then then_.reply else first.reply)
  {
    hide ApplyGate, InstallStep, PruneStep;
  }
}
