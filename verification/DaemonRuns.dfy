/** Interleaved clients: what each is told, and what the gate has been through. */
module DaemonRuns {
  import opened Daemon
  import opened Egress
  import opened EgressRuns
  import opened GateStore
  import opened Json
  import opened Nft
  import opened Options
  import opened Text

  /** A client's whole input, how much of it has been read, and what has been written back. */
  datatype Connection = Connection(input: seq<string>, read: nat, out: seq<Response>)

  datatype System = System(gate: Gate, conns: seq<Connection>)

  /** The event loop lets one connection read its next line; the line is served before any other. */
  datatype Turn = Turn(conn: nat, moment: Moment)

  predicate Active(s: System, t: Turn) { t.conn < |s.conns| && s.conns[t.conn].read < |s.conns[t.conn].input| }

  function NextLine(s: System, t: Turn): Line
    requires Active(s, t)
  {
    Line(s.conns[t.conn].input[s.conns[t.conn].read], t.moment)
  }

  function TurnStep(s: System, t: Turn, io: Loader, pr: Printer): System {
    if !Active(s, t) then s
    else
      var c, l := s.conns[t.conn], NextLine(s, t);
      if Blank(l.text) then s.(conns := s.conns[t.conn := c.(read := c.read + 1)])
      else
        var served := ServeLine(s.gate, l, io, pr);
        System(served.gate, s.conns[t.conn := c.(read := c.read + 1, out := c.out + [served.response])])
  }

  function Turns(s: System, ts: seq<Turn>, io: Loader, pr: Printer): System {
    if ts == [] then s else TurnStep(Turns(s, ts[..|ts| - 1], io, pr), ts[|ts| - 1], io, pr)
  }

  /** A line as it was dispatched, and on which connection. */
  datatype Sent = Sent(conn: nat, line: Line)

  /** The order in which the daemon served lines. */
  function Dispatched(s: System, ts: seq<Turn>, io: Loader, pr: Printer): seq<Sent> {
    if ts == [] then []
    else
      var n := |ts| - 1;
      var before, sent := Turns(s, ts[..n], io, pr), Dispatched(s, ts[..n], io, pr);
      if Active(before, ts[n]) then sent + [Sent(ts[n].conn, NextLine(before, ts[n]))] else sent
  }

  function LinesOf(sent: seq<Sent>): (ls: seq<Line>)
    ensures |ls| == |sent| && forall i :: 0 <= i < |ls| ==> ls[i] == sent[i].line
  {
    seq(|sent|, i requires 0 <= i < |sent| => sent[i].line)
  }

  /** The part of a serial run's answers that goes to one connection. */
  function AnswersTo(g: Gate, sent: seq<Sent>, conn: nat, io: Loader, pr: Printer): seq<Response> {
    if sent == [] then []
    else
      var n, x := |sent| - 1, sent[|sent| - 1];
      var before := AnswersTo(g, sent[..n], conn, io, pr);
      if x.conn != conn || Blank(x.line.text) then before
      else before + [ServeLine(GateAfter(g, LinesOf(sent[..n]), io, pr), x.line, io, pr).response]
  }

  function Opened(g: Gate, inputs: seq<seq<string>>): (s: System)
    ensures |s.conns| == |inputs|
    ensures forall c :: 0 <= c < |inputs| ==> s.conns[c] == Connection(inputs[c], 0, [])
  {
    System(g, seq(|inputs|, c requires 0 <= c < |inputs| => Connection(inputs[c], 0, [])))
  }

  // ---------- one order for everyone ----------

  lemma AnswersSnoc(g: Gate, sent: seq<Sent>, x: Sent, conn: nat, io: Loader, pr: Printer)
    ensures GateAfter(g, LinesOf(sent + [x]), io, pr)
         == var h := GateAfter(g, LinesOf(sent), io, pr); if Blank(x.line.text) then h else ServeLine(h, x.line, io, pr).gate
    ensures AnswersTo(g, sent + [x], conn, io, pr)
         == var before := AnswersTo(g, sent, conn, io, pr);
            if x.conn != conn || Blank(x.line.text) then before
            else before + [ServeLine(GateAfter(g, LinesOf(sent), io, pr), x.line, io, pr).response]
  {
    hide ServeLine, Blank;
    assert (sent + [x])[..|sent|] == sent;
    assert LinesOf(sent + [x])[..|sent|] == LinesOf(sent);
  }

  /** Whatever the interleaving, the gate ends as if the lines had been served one after another in
      dispatch order, and every connection has been written exactly the answers that serial run gives
      to its lines. */
  lemma {:induction false} Serialisable(g: Gate, inputs: seq<seq<string>>, ts: seq<Turn>, conn: nat, io: Loader, pr: Printer)
    requires conn < |inputs|
    ensures var s, sent := Turns(Opened(g, inputs), ts, io, pr), Dispatched(Opened(g, inputs), ts, io, pr);
            && |s.conns| == |inputs|
            && s.gate == GateAfter(g, LinesOf(sent), io, pr)
            && s.conns[conn].input == inputs[conn]
            && s.conns[conn].out == AnswersTo(g, sent, conn, io, pr)
  {
    hide ServeLine, Blank, GateAfter, AnswersTo;
    if ts != [] {
      var n := |ts| - 1;
      Serialisable(g, inputs, ts[..n], conn, io, pr);
      var before, sent := Turns(Opened(g, inputs), ts[..n], io, pr), Dispatched(Opened(g, inputs), ts[..n], io, pr);
      if Active(before, ts[n]) {
        AnswersSnoc(g, sent, Sent(ts[n].conn, NextLine(before, ts[n])), conn, io, pr);
      }
    } else {
      EmptySerial(g, conn, io, pr);
    }
  }

  lemma EmptySerial(g: Gate, conn: nat, io: Loader, pr: Printer)
    ensures GateAfter(g, LinesOf([]), io, pr) == g && AnswersTo(g, [], conn, io, pr) == []
  {
  }

  // ---------- a connection on its own ----------

  function TurnsOf(conn: nat, ls: seq<Line>): seq<Turn> {
    if ls == [] then [] else TurnsOf(conn, ls[..|ls| - 1]) + [Turn(conn, ls[|ls| - 1].moment)]
  }

  lemma TurnsOfSnoc(conn: nat, ls: seq<Line>)
    requires ls != []
    ensures var n, ts := |ls| - 1, TurnsOf(conn, ls);
            |ts| >= 1 && ts[..|ts| - 1] == TurnsOf(conn, ls[..n]) && ts[|ts| - 1] == Turn(conn, ls[n].moment)
  {
  }

  lemma NoTurns(g: Gate, inputs: seq<seq<string>>, conn: nat, io: Loader, pr: Printer)
    requires conn < |inputs|
    ensures Turns(Opened(g, inputs), TurnsOf(conn, []), io, pr) == Opened(g, inputs)
    ensures GateAfter(g, [], io, pr) == g && Responses(g, [], io, pr) == []
  {
  }

  /** While one connection has the daemon to itself, the turns it takes are the loop of `HandleClient`
      over the lines it reads: the same responses and the same gate, and no other connection is touched. */
  lemma {:induction false} SoleClient(g: Gate, inputs: seq<seq<string>>, conn: nat, ls: seq<Line>, io: Loader, pr: Printer)
    requires conn < |inputs| && |ls| <= |inputs[conn]|
    requires forall i :: 0 <= i < |ls| ==> ls[i].text == inputs[conn][i]
    ensures var s := Turns(Opened(g, inputs), TurnsOf(conn, ls), io, pr);
            && s.gate == GateAfter(g, ls, io, pr)
            && s.conns == Opened(g, inputs).conns[conn := Connection(inputs[conn], |ls|, Responses(g, ls, io, pr))]
  {
    hide ServeLine, Blank, TurnsOf;
    if ls == [] {
      NoTurns(g, inputs, conn, io, pr);
    } else {
      var n := |ls| - 1;
      SoleClient(g, inputs, conn, ls[..n], io, pr);
      TurnsOfSnoc(conn, ls);
    }
  }

  // ---------- one answer a line ----------

  /** The ids that a client's lines ask to see echoed; blank lines ask for nothing. */
  function IdsAsked(lines: seq<string>, io: Loader, pr: Printer): seq<Value> {
    if lines == [] then []
    else
      var n := |lines| - 1;
      var before := IdsAsked(lines[..n], io, pr);
      if Blank(lines[n]) then before else before + [Parse(Strip(lines[n]), io, pr).id]
  }

  function IdsTold(out: seq<Response>): (ids: seq<Value>)
    ensures |ids| == |out| && forall i :: 0 <= i < |ids| ==> ids[i] == out[i].id
  {
    seq(|out|, i requires 0 <= i < |out| => out[i].id)
  }

  predicate Answered(c: Connection, io: Loader, pr: Printer) {
    c.read <= |c.input| && IdsTold(c.out) == IdsAsked(c.input[..c.read], io, pr)
  }

  lemma ServeEchoes(g: Gate, l: Line, io: Loader, pr: Printer)
    ensures ServeLine(g, l, io, pr).response.id == Parse(Strip(l.text), io, pr).id
  {
    hide Parse, Strip, Step, ActiveSets;
  }

  lemma TurnAnswers(s: System, t: Turn, conn: nat, io: Loader, pr: Printer)
    requires conn < |s.conns| && Answered(s.conns[conn], io, pr)
    ensures Answered(TurnStep(s, t, io, pr).conns[conn], io, pr)
  {
    hide Parse, Strip, Blank, ServeLine;
    if Active(s, t) && t.conn == conn {
      var c := s.conns[conn];
      assert c.input[..c.read + 1][..c.read] == c.input[..c.read];
      ServeEchoes(s.gate, NextLine(s, t), io, pr);
      var r := ServeLine(s.gate, NextLine(s, t), io, pr).response;
      assert IdsTold(c.out + [r]) == IdsTold(c.out) + [r.id];
    }
  }

  /** Each connection has, at every point, exactly one response for each line read that is not blank, in
      order and with that line's id; once its input is used up, for every line of it. */
  lemma {:induction false} OneAnswerPerLine(g: Gate, inputs: seq<seq<string>>, ts: seq<Turn>, conn: nat, io: Loader, pr: Printer)
    requires conn < |inputs|
    ensures var s := Turns(Opened(g, inputs), ts, io, pr);
            && |s.conns| == |inputs|
            && s.conns[conn].input == inputs[conn]
            && Answered(s.conns[conn], io, pr)
            && (s.conns[conn].read == |inputs[conn]| ==>
                IdsTold(s.conns[conn].out) == IdsAsked(inputs[conn], io, pr))
  {
    hide ServeLine, Blank, IdsAsked;
    if ts != [] {
      var n := |ts| - 1;
      OneAnswerPerLine(g, inputs, ts[..n], conn, io, pr);
      TurnAnswers(Turns(Opened(g, inputs), ts[..n], io, pr), ts[n], conn, io, pr);
    } else {
      NothingRead(inputs[conn], io, pr);
    }
    var c := Turns(Opened(g, inputs), ts, io, pr).conns[conn];
    assert c.input[..|c.input|] == c.input;
  }

  lemma NothingRead(input: seq<string>, io: Loader, pr: Printer)
    ensures Answered(Connection(input, 0, []), io, pr)
  {
  }

  // ---------- served lines are gate runs ----------

  /** The gate operations a sequence of lines comes to. */
  function OpsOf(ls: seq<Line>, io: Loader, pr: Printer): seq<Op> {
    if ls == [] then []
    else
      var n := |ls| - 1;
      var op := OpOf(Parse(Strip(ls[n].text), io, pr).action, ls[n].moment);
      if Blank(ls[n].text) || op.None? then OpsOf(ls[..n], io, pr) else OpsOf(ls[..n], io, pr) + [op.value]
  }

  lemma RunSnoc(g: Gate, ops: seq<Op>, op: Op, pr: Printer)
    ensures Run(g, ops + [op], pr) == Step(Run(g, ops, pr), op, pr).gate
  {
    assert (ops + [op])[..|ops|] == ops;
  }

  /** So everything proved of gate runs holds however many clients there are. */
  lemma {:induction false} LinesAreRuns(g: Gate, ls: seq<Line>, io: Loader, pr: Printer)
    ensures GateAfter(g, ls, io, pr) == Run(g, OpsOf(ls, io, pr), pr)
  {
    hide Parse, Strip, Blank, Step, Run;
    if ls != [] {
      var n := |ls| - 1;
      LinesAreRuns(g, ls[..n], io, pr);
      var op := OpOf(Parse(Strip(ls[n].text), io, pr).action, ls[n].moment);
      if op.Some? {
        RunSnoc(g, OpsOf(ls[..n], io, pr), op.value, pr);
      }
    } else {
      EmptyRun(g, pr);
    }
  }

  lemma EmptyRun(g: Gate, pr: Printer)
    ensures Run(g, [], pr) == g
  {
  }

  /** Across all clients, a pair is accepted at most once and the audit log counts what the tables hold. */
  lemma ClientsConserve(k: Kernel, inputs: seq<seq<string>>, ts: seq<Turn>, key: Key, io: Loader, pr: Printer)
    requires |inputs| > 0
    ensures var ops := OpsOf(LinesOf(Dispatched(Opened(Fresh(k), inputs), ts, io, pr)), io, pr);
            && Conserved(Turns(Opened(Fresh(k), inputs), ts, io, pr).gate)
            && Acceptances(Fresh(k), ops, key, pr) <= 1
  {
    hide Turns, Dispatched, OpsOf, GateAfter, Run, Conserved, Acceptances;
    var ls := LinesOf(Dispatched(Opened(Fresh(k), inputs), ts, io, pr));
    Serialisable(Fresh(k), inputs, ts, 0, io, pr);
    LinesAreRuns(Fresh(k), ls, io, pr);
    RunConserves(k, OpsOf(ls, io, pr), pr);
    AcceptedAtMostOnce(Fresh(k), OpsOf(ls, io, pr), key, pr);
  }

  // ---------- what an error tells the client ----------

  /** A request with its `apply` switched off. */
  function Unapplied(a: Action): Action {
    match a
    case InstallCall(q, _) => InstallCall(q, false)
    case PruneCall(_) => PruneCall(false)
    case _ => a
  }

  /** The request commits and then finds that its apply cannot run the nft program. */
  predicate LacksProgram(g: Gate, c: Call, m: Moment) {
    var op := OpOf(c.action, m);
    op.Some? && Commits(g, op.value) && op.value.apply.Some? && !op.value.apply.value.env.program
  }

  /** A program that is missing is reported as what it is, and only then. */
  lemma InternalIff(g: Gate, op: Op, pr: Printer)
    ensures var s := Step(g, op, pr);
            s.reply == Failed(KernelFailed(ProgramMissing)) && s.gate != g <==>
            Commits(g, op) && op.apply.Some? && !op.apply.value.env.program
  {
    hide ApplyGate, InstallGate, PruneGate, Commits;
    OnlyCommits(g, op);
    FailureLeaves(g, op, pr);
    if Core(op).Some? {
      CoreIff(g, op, pr);
      if op.apply.Some? {
        ApplyGateIff(Step(g, Core(op).value, pr).gate, op.apply.value);
      }
    }
  }

  /** An error leaves the kernel as it was, and the rest either as it was or as the same request without
      `apply` would. One coded by the tables or by the request leaves everything unchanged; so does
      "internal", except exactly when the request has committed and its apply cannot run the nft program.
      One coded by the kernel leaves what the request without `apply` would - for `apply` and `verify`
      themselves, what was there. */
  lemma ErrorsLeave(g: Gate, c: Call, m: Moment, pr: Printer)
    requires !Serve(g, c, m, pr).response.ok
    ensures var s := Serve(g, c, m, pr);
            var core := if c.action.InstallCall? || c.action.PruneCall?
                        then Serve(g, Call(c.id, Unapplied(c.action)), m, pr).gate else g;
            && s.response.code.Some?
            && s.gate.kernel == g.kernel
            && (s.response.code.value in {"replay", "expired", "invalid"} ==> s.gate == g)
            && (s.response.code.value in {"baseline_missing", "nft", "gate"} ==> s.gate == core)
            && (s.response.code.value == "internal" ==> s.gate == if LacksProgram(g, c, m) then core else g)
            && (LacksProgram(g, c, m) ==> s.response.code.value == "internal" && s.gate != g)
            && s.response.code.value in {"replay", "expired", "invalid", "internal", "baseline_missing", "nft", "gate"}
  {
    hide InstallGate, PruneGate, ApplyGate, VerifyGate, ActiveSets, Commits, Applies;
    var op := OpOf(c.action, m);
    if op.Some? {
      FailureLeaves(g, op.value, pr);
      InternalIff(g, op.value, pr);
    }
    CodesDiffer();
  }

  lemma CodesDiffer()
    ensures {"replay", "expired", "invalid", "internal"} !! {"baseline_missing", "nft", "gate"}
  {
    assert |"replay"| == 6 && |"expired"| == 7 && |"invalid"| == 7 && |"internal"| == 8;
    assert |"baseline_missing"| == 16 && |"nft"| == 3 && |"gate"| == 4;
  }

  // ---------- which answer a request gets ----------

  lemma CodesAreDistinct()
    ensures "replay" !in {"expired", "invalid", "internal", "baseline_missing", "nft", "gate"}
    ensures "expired" !in {"invalid", "internal", "baseline_missing", "nft", "gate"}
    ensures "invalid" !in {"internal", "baseline_missing", "nft", "gate"}
    ensures "internal" !in {"baseline_missing", "nft", "gate"}
    ensures "baseline_missing" !in {"nft", "gate"} && "nft" != "gate"
  {
    assert |"replay"| == 6 && |"expired"| == 7 && |"invalid"| == 7 && |"internal"| == 8;
    assert |"baseline_missing"| == 16 && |"nft"| == 3 && |"gate"| == 4;
    assert "expired"[0] == 'e' && "invalid"[0] == 'i';
  }

  /** Nothing a line can ask for is rejected with an error of the gate's own. */
  predicate FromALine(c: Call) { c.action.Rejected? ==> c.action.e in {InvalidRequest, OtherError} }

  /** The request gets as far as an apply. */
  predicate Applying(g: Gate, a: Action, m: Moment) {
    match a
    case ApplyCall => true
    case InstallCall(q, apply) => apply && q.exp > m.clock.checkedAt && (q.tokenId, q.nonce) !in g.tables.replay
    case PruneCall(apply) => apply
    case _ => false
  }

  lemma ApplyCodes(g: Gate, at: Attempt)
    ensures var e, f := at.env, ApplyGate(g, at).reply;
            && (f == Failed(KernelFailed(ProgramMissing)) <==> !e.program)
            && (f == Failed(KernelFailed(BaselineMissing)) <==> e.program && !BaselineThere(g.kernel))
            && (f == Failed(KernelFailed(RootRequired)) <==> e.program && BaselineThere(g.kernel) && !e.root)
            && (f == Failed(KernelFailed(NftFailed)) <==> e.program && BaselineThere(g.kernel) && e.root && !e.accepts)
            && (f == Done <==> e.program && BaselineThere(g.kernel) && e.root && e.accepts)
  {
    hide ApplyGate, BaselineThere;
    ApplySays(g, at, Printer(v => ""));
  }

  /** The reply an operation gets, by the first thing that fails. */
  lemma RepliesSay(g: Gate, a: Action, m: Moment, pr: Printer)
    requires Conserved(g) && OpOf(a, m).Some?
    ensures var reply, e, k := Step(g, OpOf(a, m).value, pr).reply, m.attempt.env, g.kernel;
            && (reply == Failed(ExpiredGrant) <==> a.InstallCall? && a.q.exp <= m.clock.checkedAt)
            && (reply == Failed(ReplayDetected) <==>
                a.InstallCall? && a.q.exp > m.clock.checkedAt && (a.q.tokenId, a.q.nonce) in g.tables.replay)
            && reply != Failed(DuplicateGrant)
            && (!a.VerifyCall? ==>
                && (reply == Failed(KernelFailed(ProgramMissing)) <==> Applying(g, a, m) && !e.program)
                && (reply == Failed(KernelFailed(BaselineMissing)) <==> Applying(g, a, m) && e.program && !BaselineThere(k))
                && (reply == Failed(KernelFailed(RootRequired)) <==>
                    Applying(g, a, m) && e.program && BaselineThere(k) && !e.root)
                && (reply == Failed(KernelFailed(NftFailed)) <==>
                    Applying(g, a, m) && e.program && BaselineThere(k) && e.root && !e.accepts)
                && reply != Failed(KernelFailed(NotANumber)))
  {
    hide ApplyGate, VerifyGate, BaselineThere, HasKey, Live, Conserved;
    match a {
      case InstallCall(q, apply) =>
        InstallConserves(g, q, m.clock);
        InstallGateSays(g, q, m.clock, pr);
        KernelStays(g, InstallOp(q, m.clock, None), pr);
        ApplyCodes(InstallGate(g, q, m.clock).gate, m.attempt);
      case PruneCall(apply) =>
        KernelStays(g, PruneOp(m.now, None), pr);
        ApplyCodes(PruneGate(g, m.now).gate, m.attempt);
      case ApplyCall =>
        ApplyCodes(g, m.attempt);
      case VerifyCall =>
        VerifySays(g, m.now, m.listings, pr);
    }
  }

  lemma KernelStays(g: Gate, op: Op, pr: Printer)
    requires (op.InstallOp? || op.PruneOp?) && op.apply == None
    ensures Step(g, op, pr).gate.kernel == g.kernel
  {
    hide HasKey, Live;
  }

  /** Each code goes to just these requests; a gate's own conservation is all it needs. "expired" and
      "replay" are about the installation asked for, "invalid" and part of "internal" about its shape, the
      rest about the first thing an apply or a verification finds wrong. */
  lemma CodesSay(g: Gate, c: Call, m: Moment, pr: Printer)
    requires Conserved(g) && FromALine(c)
    ensures var code, a, e, k := Serve(g, c, m, pr).response.code, c.action, m.attempt.env, g.kernel;
            var applying := Applying(g, a, m);
            && (code == Some("expired") <==> a.InstallCall? && a.q.exp <= m.clock.checkedAt)
            && (code == Some("replay") <==>
                a.InstallCall? && a.q.exp > m.clock.checkedAt && (a.q.tokenId, a.q.nonce) in g.tables.replay)
            && (code == Some("invalid") <==> a == Rejected(InvalidRequest))
            && (code == Some("internal") <==>
                a == Rejected(OtherError) || (applying && !e.program) || (a.VerifyCall? && !m.listings.program))
            && (code == Some("baseline_missing") <==>
                !BaselineThere(k) && ((applying && e.program) || (a.VerifyCall? && m.listings.program)))
            && (code == Some("gate") <==> applying && e.program && BaselineThere(k) && !e.root)
            && (!a.VerifyCall? ==>
                (code == Some("nft") <==> applying && e.program && BaselineThere(k) && e.root && !e.accepts))
  {
    hide Step, BaselineThere, Conserved, Applying;
    CodesAreDistinct();
    var op := OpOf(c.action, m);
    if op.Some? {
      RepliesSay(g, c.action, m, pr);
    }
    if c.action.VerifyCall? {
      VerifyIsNoApply(g, c.action, m);
      VerifyReply(g, m, pr);
    }
    OnlyOperationsApply(g, c.action, m);
  }

  lemma VerifyIsNoApply(g: Gate, a: Action, m: Moment)
    requires a.VerifyCall?
    ensures !Applying(g, a, m)
  {
  }

  lemma OnlyOperationsApply(g: Gate, a: Action, m: Moment)
    ensures Applying(g, a, m) ==> a.InstallCall? || a.PruneCall? || a.ApplyCall?
  {
  }

  lemma VerifyReply(g: Gate, m: Moment, pr: Printer)
    ensures var reply := Step(g, OpOf(VerifyCall, m).value, pr).reply;
            && (reply == Failed(KernelFailed(ProgramMissing)) <==> !m.listings.program)
            && (reply == Failed(KernelFailed(BaselineMissing)) <==> m.listings.program && !BaselineThere(g.kernel))
            && (reply.Failed? ==> reply.failure in {KernelFailed(ProgramMissing), KernelFailed(BaselineMissing), KernelFailed(NftFailed)})
  {
    hide VerifyGate, BaselineThere;
    VerifySays(g, m.now, m.listings, pr);
  }

  /** The listed sets, normalised, are the active sets. */
  ghost predicate ListsActive(g: Gate, m: Moment, pr: Printer) {
    exists v4, tcp, udp :: AllAnswer(m.listings, pr, v4, tcp, udp)
      && Sets(ShownAddrs(v4), ShownPorts(tcp), ShownPorts(udp)) == ActiveSets(g.tables, m.now)
  }

  /** A verification is answered ok exactly when the listed sets are the active ones, and with "nft" when, of
      what it needs, only that fails. */
  lemma VerifyAnswered(g: Gate, c: Call, m: Moment, pr: Printer)
    requires c.action.VerifyCall?
    ensures var r := Serve(g, c, m, pr).response;
            && (r.ok <==> m.listings.program && BaselineThere(g.kernel) && ListsActive(g, m, pr))
            && (r.code == Some("nft") <==> m.listings.program && BaselineThere(g.kernel) && !ListsActive(g, m, pr))
  {
    hide VerifyStep, BaselineThere, ActiveSets, AllAnswer, ShownAddrs, ShownPorts;
    CodesAreDistinct();
    VerifySays(g, m.now, m.listings, pr);
  }

  /** What a success says: what was done, and for a prune how many grants had expired; health and snapshot
      their instant, and a snapshot the active sets, without changing anything. The id is the request's. */
  lemma SuccessSays(g: Gate, c: Call, m: Moment, pr: Printer)
    requires Serve(g, c, m, pr).response.ok
    ensures var s, a := Serve(g, c, m, pr), c.action;
            && s.response.id == c.id && s.response.code == None && !a.Rejected?
            && (a.HealthCall? ==> s == Served(g, Response(c.id, true, Some(Health(m.ts)), None)))
            && (a.SnapshotCall? ==>
                s == Served(g, Response(c.id, true, Some(Snapshot(m.ts, ActiveSets(g.tables, m.now))), None)))
            && (a.InstallCall? ==> s.response.result == Some(Status("installed")))
            && (a.PruneCall? ==> s.response.result == Some(RemovedCount(ExpiredCount(g.tables.grants, m.now))))
            && (a.ApplyCall? ==> s.response.result == Some(Status("applied")))
            && (a.VerifyCall? ==> s.response.result == Some(Status("ok")))
  {
    hide ApplyGate, VerifyGate, InstallGate, Live, ExpiredCount, ActiveSets;
    if c.action.PruneCall? {
      PruneGateSays(g, m.now, pr);
    }
  }

  /** And a failure: the id, no result and a code. */
  lemma FailureSays(g: Gate, c: Call, m: Moment, pr: Printer)
    requires !Serve(g, c, m, pr).response.ok
    ensures var r := Serve(g, c, m, pr).response; r.id == c.id && r.result == None && r.code.Some?
  {
    hide Step, MapError, ActiveSets;
  }
}
