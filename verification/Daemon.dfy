/** The daemon: one JSON request a line, one response a request. */
module Daemon {
  import opened Egress
  import opened GateStore
  import opened Json
  import opened Nft
  import opened Options
  import opened Text

  /** `json.loads`: None where it raises. Nothing else is known about it. */
  datatype Loader = Loader(loads: string -> Option<Value>)

  // ---------- responses ----------

  datatype Payload = Health(ts: int) | Snapshot(ts: int, active: Sets) | Status(text: string) | RemovedCount(n: nat)

  datatype Response = Response(id: Value, ok: bool, result: Option<Payload>, code: Option<string>)

  function OkResponse(id: Value, result: Payload): Response { Response(id, true, Some(result), None) }

  datatype Raised = InvalidRequest | OtherError | FromGate(failure: Failure)

  function ErrResponse(id: Value, e: Raised): Response { Response(id, false, None, Some(MapError(e))) }

  function MapError(e: Raised): string {
    match e
    case InvalidRequest => "invalid"
    case OtherError => "internal"
    case FromGate(ReplayDetected) => "replay"
    case FromGate(ExpiredGrant) => "expired"
    case FromGate(DuplicateGrant) => "internal"
    case FromGate(KernelFailed(BaselineMissing)) => "baseline_missing"
    case FromGate(KernelFailed(NftFailed)) => "nft"
    case FromGate(KernelFailed(RootRequired)) => "gate"
    case FromGate(KernelFailed(NotANumber)) => "internal"
    case FromGate(KernelFailed(ProgramMissing)) => "internal"
  }

  // ---------- requests ----------

  datatype Action =
    | HealthCall
    | SnapshotCall
    | InstallCall(q: Request, apply: bool)
    | PruneCall(apply: bool)
    | ApplyCall
    | VerifyCall
    | Rejected(e: Raised)

  datatype Call = Call(id: Value, action: Action)

  function IntsOf(vs: seq<Value>): Option<seq<int>> {
    if vs == [] then Some([])
    else
      var front, last := IntsOf(vs[..|vs| - 1]), IntOf(vs[|vs| - 1]);
      if front.None? || last.None? then None else Some(front.value + [last.value])
  }

  function StrsOf(vs: seq<Value>, pr: Printer): (r: seq<string>)
    ensures |r| == |vs| && forall i :: 0 <= i < |r| ==> r[i] == StrOf(vs[i], pr)
  {
    seq(|vs|, i requires 0 <= i < |vs| => StrOf(vs[i], pr))
  }

  /** What `for x in v` goes through: a list's items, a string's characters, an object's keys. */
  function Iterated(v: Value): Option<seq<Value>> {
    match v
    case Arr(items) => Some(items)
    case Str(s) => Some(seq(|s|, i requires 0 <= i < |s| => Str([s[i]])))
    case Obj(fields) => Some(seq(|fields|, i requires 0 <= i < |fields| => Str(fields[i].key)))
    case _ => None
  }

  const REQUIRED: seq<string> := ["token_id", "nonce", "exp", "targets", "ports", "proto"]

  predicate RequireFields(params: seq<Field>, fields: seq<string>) {
    forall i :: 0 <= i < |fields| ==> Lookup(params, fields[i]).Some?
  }

  function InstallAction(params: seq<Field>, pr: Printer): Action {
    if !RequireFields(params, REQUIRED) then Rejected(InvalidRequest)
    else
      var exp := IntOf(GetOr(params, "exp", Null));
      var targets := Iterated(GetOr(params, "targets", Null));
      var ports := Iterated(GetOr(params, "ports", Null));
      if exp.None? || targets.None? || ports.None? || IntsOf(ports.value).None? then Rejected(OtherError)
      else
        InstallCall(Request(StrOf(GetOr(params, "token_id", Null), pr), StrOf(GetOr(params, "nonce", Null), pr), exp.value,
                            StrsOf(targets.value, pr), IntsOf(ports.value).value, StrOf(GetOr(params, "proto", Null), pr)),
                    Truthy(GetOr(params, "apply", Bool(false))))
  }

  function ActionOf(method_: string, params: seq<Field>, pr: Printer): Action {
    if method_ == "health" then HealthCall
    else if method_ == "snapshot" then SnapshotCall
    else if method_ == "grant.install" then InstallAction(params, pr)
    else if method_ == "prune" then PruneCall(Truthy(GetOr(params, "apply", Bool(false))))
    else if method_ == "apply" then ApplyCall
    else if method_ == "verify" then VerifyCall
    else Rejected(OtherError)
  }

  /** What a line asks for. The id is known only once the line has parsed as an object. */
  function Parse(raw: string, io: Loader, pr: Printer): Call {
    var req := io.loads(raw);
    if req.None? || !req.value.Obj? then Call(Null, Rejected(OtherError))
    else
      var id := GetOr(req.value.fields, "id", Null);
      var method_ := GetOr(req.value.fields, "method", Null);
      var given := GetOr(req.value.fields, "params", Null);
      var params := if Truthy(given) then given else Obj([]);
      if !method_.Str? || !params.Obj? then Call(id, Rejected(OtherError))
      else Call(id, ActionOf(method_.s, params.fields, pr))
  }

  // ---------- serving ----------

  /** Every reading a request may take of the world: the response's timestamp, the clocks of the tables
      and of an apply, and the kernel's listings. */
  datatype Moment = Moment(ts: int, now: int, clock: Clock, attempt: Attempt, listings: Listings)

  function Attempted(apply: bool, m: Moment): Option<Attempt> { if apply then Some(m.attempt) else None }

  /** The gate operation an action stands for. */
  function OpOf(a: Action, m: Moment): Option<Op> {
    match a
    case InstallCall(q, apply) => Some(InstallOp(q, m.clock, Attempted(apply, m)))
    case PruneCall(apply) => Some(PruneOp(m.now, Attempted(apply, m)))
    case ApplyCall => Some(ApplyOp(m.attempt))
    case VerifyCall => Some(VerifyOp(m.now, m.listings))
    case _ => None
  }

  function ReplyPayload(a: Action, reply: Reply): Payload {
    match a
    case InstallCall(_, _) => Status("installed")
    case PruneCall(_) => if reply.Removed? then RemovedCount(reply.n) else RemovedCount(0)
    case ApplyCall => Status("applied")
    case _ => Status("ok")
  }

  datatype Served = Served(gate: Gate, response: Response)

  function Serve(g: Gate, c: Call, m: Moment, pr: Printer): Served {
    match c.action
    case HealthCall => Served(g, OkResponse(c.id, Health(m.ts)))
    case SnapshotCall => Served(g, OkResponse(c.id, Snapshot(m.ts, ActiveSets(g.tables, m.now))))
    case Rejected(e) => Served(g, ErrResponse(c.id, e))
    case _ =>
      var s := Step(g, OpOf(c.action, m).value, pr);
      Served(s.gate, if s.reply.Failed? then ErrResponse(c.id, FromGate(s.reply.failure))
                     else OkResponse(c.id, ReplyPayload(c.action, s.reply)))
  }

  /** A line and the moment the daemon gets to it. */
  datatype Line = Line(text: string, moment: Moment)

  function ServeLine(g: Gate, l: Line, io: Loader, pr: Printer): Served {
    Serve(g, Parse(Strip(l.text), io, pr), l.moment, pr)
  }

  /** The gate after a sequence of lines. */
  function GateAfter(g: Gate, ls: seq<Line>, io: Loader, pr: Printer): Gate {
    if ls == [] then g
    else
      var n := |ls| - 1;
      var h := GateAfter(g, ls[..n], io, pr);
      if Blank(ls[n].text) then h else ServeLine(h, ls[n], io, pr).gate
  }

  function Responses(g: Gate, ls: seq<Line>, io: Loader, pr: Printer): seq<Response> {
    if ls == [] then []
    else
      var n := |ls| - 1;
      var before := Responses(g, ls[..n], io, pr);
      if Blank(ls[n].text) then before else before + [ServeLine(GateAfter(g, ls[..n], io, pr), ls[n], io, pr).response]
  }

  /** Carries out one request on the gate. */
  method Dispatch(gate: EgressGate, c: Call, m: Moment) returns (res: Response)
    modifies gate.store, gate.kernel, gate`audit
    ensures Served(gate.State(), res) == Serve(old(gate.State()), c, m, gate.pr)
  {
    var reply: Reply;
    match c.action {
      case HealthCall => return OkResponse(c.id, Health(m.ts));
      case SnapshotCall =>
        var active := gate.Snapshot(m.now);
        return OkResponse(c.id, Snapshot(m.ts, active));
      case Rejected(e) => return ErrResponse(c.id, e);
      case InstallCall(q, apply) => reply := gate.Install(q, m.clock, Attempted(apply, m));
      case PruneCall(apply) => reply := gate.Prune(m.now, Attempted(apply, m));
      case ApplyCall => reply := gate.Apply(m.attempt);
      case VerifyCall => reply := gate.Verify(m.now, m.listings);
    }
    if reply.Failed? {
      return ErrResponse(c.id, FromGate(reply.failure));
    }
    return OkResponse(c.id, ReplyPayload(c.action, reply));
  }

  /** Reads a connection to its end, answering every line that is not blank. */
  method HandleClient(gate: EgressGate, lines: seq<Line>, io: Loader) returns (out: seq<Response>)
    modifies gate.store, gate.kernel, gate`audit
    ensures out == Responses(old(gate.State()), lines, io, gate.pr)
    ensures gate.State() == GateAfter(old(gate.State()), lines, io, gate.pr)
  {
    hide Serve, Parse, Strip;
    ghost var start := gate.State();
    out := [];
    var i := 0;
    while i < |lines|
      invariant 0 <= i <= |lines|
      invariant out == Responses(start, lines[..i], io, gate.pr)
      invariant gate.State() == GateAfter(start, lines[..i], io, gate.pr)
    {
      assert lines[..i + 1][..i] == lines[..i];
      var raw := Strip(lines[i].text);
      if raw != "" {
        var res := Dispatch(gate, Parse(raw, io, gate.pr), lines[i].moment);
        out := out + [res];
      }
      i := i + 1;
    }
    assert lines[..|lines|] == lines;
  }
}
