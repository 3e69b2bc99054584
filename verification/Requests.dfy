/** Requests as the protocol describes them, and what the daemon makes of them. */
module Requests {
  import opened Daemon
  import opened GateStore
  import opened Json
  import opened Options

  function Strings(ts: seq<string>): seq<Value> { seq(|ts|, i requires 0 <= i < |ts| => Str(ts[i])) }

  function Numbers(ns: seq<int>): (vs: seq<Value>)
    ensures |vs| == |ns|
  {
    if ns == [] then [] else Numbers(ns[..|ns| - 1]) + [Num(ns[|ns| - 1])]
  }

  function MethodOf(a: Action): string
    requires !a.Rejected?
  {
    match a
    case HealthCall => "health"
    case SnapshotCall => "snapshot"
    case InstallCall(_, _) => "grant.install"
    case PruneCall(_) => "prune"
    case ApplyCall => "apply"
    case VerifyCall => "verify"
  }

  function ParamsOf(a: Action): seq<Field> {
    match a
    case InstallCall(q, apply) =>
      [Field("token_id", Str(q.tokenId)), Field("nonce", Str(q.nonce)), Field("exp", Num(q.exp)),
       Field("targets", Arr(Strings(q.targets))), Field("ports", Arr(Numbers(q.ports))), Field("proto", Str(q.proto)),
       Field("apply", Bool(apply))]
    case PruneCall(apply) => [Field("apply", Bool(apply))]
    case _ => []
  }

  /** A request as a client writes it. */
  function Encoded(id: Value, a: Action): Value
    requires !a.Rejected?
  {
    Obj([Field("id", id), Field("method", Str(MethodOf(a))), Field("params", Obj(ParamsOf(a)))])
  }

  lemma {:induction false} NumbersBack(ns: seq<int>)
    ensures IntsOf(Numbers(ns)) == Some(ns)
  {
    if ns != [] {
      var n := |ns| - 1;
      NumbersBack(ns[..n]);
      assert Numbers(ns)[..n] == Numbers(ns[..n]);
      assert ns == ns[..n] + [ns[n]];
    }
  }

  lemma StringsBack(ts: seq<string>, pr: Printer)
    ensures StrsOf(Strings(ts), pr) == ts
  {
  }

  lemma HeadKeys()
    ensures "id" != "method" && "id" != "params" && "method" != "params"
  {
    assert |"id"| == 2 && |"method"| == 6 && |"params"| == 6;
    assert "method"[0] == 'm' && "params"[0] == 'p';
  }

  lemma Distinct(a: string, b: string, i: nat)
    requires |a| != |b| || (i < |a| && a[i] != b[i])
    ensures a != b
  {
  }

  lemma MethodNames()
    ensures "health" !in {"snapshot", "grant.install", "prune", "apply", "verify"}
    ensures "snapshot" !in {"grant.install", "prune", "apply", "verify"}
    ensures "grant.install" !in {"prune", "apply", "verify"}
    ensures "prune" !in {"apply", "verify"} && "apply" != "verify"
  {
    assert |"health"| == 6 && |"snapshot"| == 8 && |"grant.install"| == 13 && |"prune"| == 5 && |"apply"| == 5 && |"verify"| == 6;
    Distinct("health", "verify", 0);
    Distinct("prune", "apply", 0);
  }

  lemma ActionBack(a: Action, pr: Printer)
    requires !a.Rejected?
    requires a.InstallCall? ==> InstallAction(ParamsOf(a), pr) == a
    requires a.PruneCall? ==> GetOr(ParamsOf(a), "apply", Bool(false)) == Bool(a.apply)
    ensures ActionOf(MethodOf(a), ParamsOf(a), pr) == a
  {
    hide InstallAction, ParamsOf, GetOr;
    MethodNames();
  }

  lemma PruneBack(apply: bool)
    ensures GetOr(ParamsOf(PruneCall(apply)), "apply", Bool(false)) == Bool(apply)
  {
    LookupFirst(ParamsOf(PruneCall(apply)), 0);
  }

  lemma InstallKeys(i: nat, j: nat)
    requires i < j < 7
    ensures (REQUIRED + ["apply"])[i] != (REQUIRED + ["apply"])[j]
  {
    var keys := REQUIRED + ["apply"];
    assert keys == ["token_id", "nonce", "exp", "targets", "ports", "proto", "apply"];
    assert |"token_id"| == 8 && |"nonce"| == 5 && |"exp"| == 3 && |"targets"| == 7 && |"ports"| == 5 && |"proto"| == 5 && |"apply"| == 5;
    assert "nonce"[0] == 'n' && "apply"[0] == 'a' && "ports"[0] == 'p' && "proto"[0] == 'p';
    Distinct("ports", "proto", 1);
  }

  lemma InstallFields(q: Request, apply: bool, i: nat)
    requires i < 7
    ensures var fields := ParamsOf(InstallCall(q, apply));
            |fields| == 7 && fields[i].key == (REQUIRED + ["apply"])[i] && Lookup(fields, fields[i].key) == Some(fields[i].value)
  {
    hide Lookup;
    var fields := ParamsOf(InstallCall(q, apply));
    var keys := REQUIRED + ["apply"];
    assert keys == ["token_id", "nonce", "exp", "targets", "ports", "proto", "apply"];
    assert forall k :: 0 <= k < 7 ==> fields[k].key == keys[k];
    forall j | 0 <= j < i
      ensures fields[j].key != fields[i].key
    {
      InstallKeys(j, i);
    }
    LookupFirst(fields, i);
  }

  lemma InstallLookups(q: Request, apply: bool)
    ensures var fields := ParamsOf(InstallCall(q, apply));
            && Lookup(fields, "token_id") == Some(Str(q.tokenId)) && Lookup(fields, "nonce") == Some(Str(q.nonce))
            && Lookup(fields, "exp") == Some(Num(q.exp)) && Lookup(fields, "targets") == Some(Arr(Strings(q.targets)))
            && Lookup(fields, "ports") == Some(Arr(Numbers(q.ports))) && Lookup(fields, "proto") == Some(Str(q.proto))
            && Lookup(fields, "apply") == Some(Bool(apply))
  {
    hide Lookup, Numbers, Strings;
    var fields := ParamsOf(InstallCall(q, apply));
    InstallFields(q, apply, 0);
    InstallFields(q, apply, 1);
    InstallFields(q, apply, 2);
    InstallFields(q, apply, 3);
    InstallFields(q, apply, 4);
    InstallFields(q, apply, 5);
    InstallFields(q, apply, 6);
    assert fields[0].key == "token_id" && fields[1].key == "nonce" && fields[2].key == "exp" && fields[3].key == "targets";
    assert fields[4].key == "ports" && fields[5].key == "proto" && fields[6].key == "apply";
  }

  lemma InstallHasRequired(q: Request, apply: bool)
    ensures RequireFields(ParamsOf(InstallCall(q, apply)), REQUIRED)
  {
    hide Lookup, Numbers, Strings, ParamsOf;
    var fields := ParamsOf(InstallCall(q, apply));
    forall i | 0 <= i < |REQUIRED|
      ensures Lookup(fields, REQUIRED[i]).Some?
    {
      InstallFields(q, apply, i);
      assert REQUIRED[i] == (REQUIRED + ["apply"])[i];
    }
  }

  lemma InstallBack(q: Request, apply: bool, pr: Printer)
    ensures InstallAction(ParamsOf(InstallCall(q, apply)), pr) == InstallCall(q, apply)
  {
    hide Lookup, IntsOf, Numbers, StrsOf, Strings, ParamsOf, RequireFields;
    InstallLookups(q, apply);
    InstallHasRequired(q, apply);
    NumbersBack(q.ports);
    StringsBack(q.targets, pr);
  }

  /** Every request the protocol describes is understood as what it says, with its id. */
  lemma ParseInverts(id: Value, a: Action, raw: string, io: Loader, pr: Printer)
    requires !a.Rejected? && io.loads(raw) == Some(Encoded(id, a))
    ensures Parse(raw, io, pr) == Call(id, a)
  {
    hide ActionOf, ParamsOf, MethodOf, Lookup, InstallAction;
    var fields := Encoded(id, a).fields;
    HeadKeys();
    LookupFirst(fields, 0);
    LookupFirst(fields, 1);
    LookupFirst(fields, 2);
    if a.InstallCall? {
      InstallBack(a.q, a.apply, pr);
    } else if a.PruneCall? {
      PruneBack(a.apply);
    }
    ActionBack(a, pr);
  }

  // ---------- requests of any shape ----------

  /** The values Python takes for false. */
  function Falsy(): set<Value> { {Null, Bool(false), Num(0), Str(""), Arr([]), Obj([])} }

  /** An entry is there and is not false. */
  ghost predicate Asked(params: seq<Field>, key: string) {
    exists v :: Lookup(params, key) == Some(v) && v !in Falsy()
  }

  lemma AskedIff(params: seq<Field>, key: string)
    ensures Truthy(GetOr(params, key, Bool(false))) <==> Asked(params, key)
  {
    hide Truthy, Lookup;
    TruthyIff(GetOr(params, key, Bool(false)));
  }

  /** The parameters a request gives: none where there are none or something false, and not understood
      where they are something else that is not an object. */
  function Given(fields: seq<Field>): Option<seq<Field>> {
    var p := Lookup(fields, "params");
    if p.None? || p.value in Falsy() then Some([]) else if p.value.Obj? then Some(p.value.fields) else None
  }

  /** A line that is not an object is an error without an id. An object's id is known whatever else is wrong
      with it; a method that is not text, or parameters that are no object, are errors; and otherwise the
      method is asked for with the parameters given, none standing for an empty object. */
  lemma ParseSays(raw: string, io: Loader, pr: Printer)
    ensures var v, c := io.loads(raw), Parse(raw, io, pr);
            if v.None? || !v.value.Obj? then c == Call(Null, Rejected(OtherError))
            else
              var fields := v.value.fields;
              var id, name, params := Lookup(fields, "id"), Lookup(fields, "method"), Given(fields);
              && c.id == (if id.Some? then id.value else Null)
              && c.action == (if name.None? || !name.value.Str? || params.None? then Rejected(OtherError)
                              else ActionOf(name.value.s, params.value, pr))
  {
    hide ActionOf, Lookup, Truthy;
    var v := io.loads(raw);
    if v.Some? && v.value.Obj? {
      TruthyIff(GetOr(v.value.fields, "params", Null));
    }
  }

  /** The six methods; a prune applies exactly when asked to, and any other name is an error. */
  lemma MethodsSay(name: string, params: seq<Field>, pr: Printer)
    ensures ActionOf("health", params, pr) == HealthCall && ActionOf("snapshot", params, pr) == SnapshotCall
    ensures ActionOf("apply", params, pr) == ApplyCall && ActionOf("verify", params, pr) == VerifyCall
    ensures ActionOf("prune", params, pr) == PruneCall(Asked(params, "apply"))
    ensures ActionOf("grant.install", params, pr) == InstallAction(params, pr)
    ensures name !in {"health", "snapshot", "apply", "verify", "prune", "grant.install"} ==>
            ActionOf(name, params, pr) == Rejected(OtherError)
  {
    hide InstallAction, GetOr, Asked, Truthy;
    MethodNames();
    AskedIff(params, "apply");
  }

  /** What there is to go through in a value. */
  lemma IteratedSays(v: Value)
    ensures v.Arr? ==> Iterated(v) == Some(v.items)
    ensures v.Str? ==> Iterated(v).Some? && |Iterated(v).value| == |v.s|
    ensures v.Str? ==> forall i :: 0 <= i < |v.s| ==> Iterated(v).value[i] == Str(v.s[i..i + 1])
    ensures v.Obj? ==> Iterated(v).Some? && |Iterated(v).value| == |v.fields|
    ensures v.Obj? ==> forall i :: 0 <= i < |v.fields| ==> Iterated(v).value[i] == Str(v.fields[i].key)
    ensures v.Null? || v.Bool? || v.Num? ==> Iterated(v).None?
  {
  }

  lemma {:induction false} IntsOfSays(vs: seq<Value>)
    ensures IntsOf(vs).None? <==> exists i :: 0 <= i < |vs| && IntOf(vs[i]).None?
    ensures IntsOf(vs).Some? ==> |IntsOf(vs).value| == |vs|
    ensures IntsOf(vs).Some? ==> forall i :: 0 <= i < |vs| ==> IntOf(vs[i]) == Some(IntsOf(vs).value[i])
  {
    hide IntOf;
    if vs != [] {
      var n := |vs| - 1;
      IntsOfSays(vs[..n]);
      assert forall i :: 0 <= i < n ==> vs[..n][i] == vs[i];
    }
  }

  /** An install with a field missing is invalid, and only that. */
  lemma InvalidIff(params: seq<Field>, pr: Printer)
    ensures InstallAction(params, pr) == Rejected(InvalidRequest) <==>
            exists key :: key in {"token_id", "nonce", "exp", "targets", "ports", "proto"} && Lookup(params, key) == None
  {
    hide Lookup, IntOf, Iterated, IntsOf, StrsOf, StrOf, Truthy, RequireFields;
    RequiredIff(params);
  }

  lemma RequiredIff(params: seq<Field>)
    ensures !RequireFields(params, REQUIRED) ==>
            exists key :: key in {"token_id", "nonce", "exp", "targets", "ports", "proto"} && Lookup(params, key) == None
    ensures RequireFields(params, REQUIRED) ==>
            forall key :: key in {"token_id", "nonce", "exp", "targets", "ports", "proto"} ==> Lookup(params, key).Some?
  {
    hide Lookup;
    assert REQUIRED[0] == "token_id" && REQUIRED[1] == "nonce" && REQUIRED[2] == "exp";
    assert REQUIRED[3] == "targets" && REQUIRED[4] == "ports" && REQUIRED[5] == "proto";
    if !RequireFields(params, REQUIRED) {
      var i :| 0 <= i < |REQUIRED| && Lookup(params, REQUIRED[i]) == None;
      assert REQUIRED[i] in {"token_id", "nonce", "exp", "targets", "ports", "proto"};
    }
    if RequireFields(params, REQUIRED) {
      assert Lookup(params, REQUIRED[0]).Some? && Lookup(params, REQUIRED[1]).Some? && Lookup(params, REQUIRED[2]).Some?;
      assert Lookup(params, REQUIRED[3]).Some? && Lookup(params, REQUIRED[4]).Some? && Lookup(params, REQUIRED[5]).Some?;
    }
  }

  /** The six fields of an install request, whatever they hold. */
  datatype Six = Six(tokenId: Value, nonce: Value, exp: Value, targets: Value, ports: Value, proto: Value)

  predicate Holds(params: seq<Field>, s: Six) {
    && Lookup(params, "token_id") == Some(s.tokenId) && Lookup(params, "nonce") == Some(s.nonce)
    && Lookup(params, "exp") == Some(s.exp) && Lookup(params, "targets") == Some(s.targets)
    && Lookup(params, "ports") == Some(s.ports) && Lookup(params, "proto") == Some(s.proto)
  }

  /** Expiry and ports can be made numbers, and targets and ports can be gone through. */
  predicate Convertible(s: Six) {
    IntOf(s.exp).Some? && Iterated(s.targets).Some? && Iterated(s.ports).Some? && IntsOf(Iterated(s.ports).value).Some?
  }

  /** With its six fields there, an install that cannot be converted is an error; one that can asks for just
      what the fields come to, and for an apply exactly when that is asked - never when `apply` is
      absent, null or false. */
  lemma InstallSays(params: seq<Field>, s: Six, pr: Printer)
    requires Holds(params, s)
    ensures !Convertible(s) ==> InstallAction(params, pr) == Rejected(OtherError)
    ensures Convertible(s) ==>
            var a := InstallAction(params, pr);
            && a.InstallCall? && a.apply == Asked(params, "apply")
            && a.q.tokenId == StrOf(s.tokenId, pr) && a.q.nonce == StrOf(s.nonce, pr) && a.q.proto == StrOf(s.proto, pr)
            && Some(a.q.exp) == IntOf(s.exp) && Some(a.q.ports) == IntsOf(Iterated(s.ports).value)
            && |a.q.targets| == |Iterated(s.targets).value|
            && forall i :: 0 <= i < |a.q.targets| ==> a.q.targets[i] == StrOf(Iterated(s.targets).value[i], pr)
  {
    hide Lookup, IntOf, Iterated, IntsOf, StrOf, Truthy, Asked;
    AskedIff(params, "apply");
    InvalidIff(params, pr);
    RequiredThere(params, s);
  }

  lemma RequiredThere(params: seq<Field>, s: Six)
    requires Holds(params, s)
    ensures RequireFields(params, REQUIRED)
  {
    hide Lookup;
    assert REQUIRED == ["token_id", "nonce", "exp", "targets", "ports", "proto"];
  }

  /** No request comes out as an error of the gate's own. */
  lemma ParseRejects(raw: string, io: Loader, pr: Printer)
    ensures var a := Parse(raw, io, pr).action; a.Rejected? ==> a.e in {InvalidRequest, OtherError}
  {
    hide Lookup, IntOf, Iterated, IntsOf, StrsOf, StrOf, Truthy, RequireFields, GetOr;
  }
}
