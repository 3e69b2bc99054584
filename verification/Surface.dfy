/** Truth and delta surfaces: the evidence panel, the gate decision and the sealed documents. */
module Surface {
  import opened Json
  import opened Names
  import opened Nulls
  import opened Options
  import opened Seals
  import opened Sorting
  import opened Text

  // ---------- sorted sets ----------

  lemma Drawn(s: set<string>, left: set<string>, x: string, walk: seq<string>)
    requires left <= s && x in left && multiset(walk) == multiset(s - left)
    ensures multiset(walk + [x]) == multiset(s - (left - {x}))
  {
    assert s - (left - {x}) == (s - left) + {x};
  }

  /** `sorted(s)`. */
  method SortedSet(s: set<string>) returns (r: seq<string>)
    ensures r == SortedNames(s)
  {
    hide SortedNames, StableSort;
    var left := s;
    var walk: seq<string> := [];
    while left != {}
      invariant left <= s && multiset(walk) == multiset(s - left)
      decreases left
    {
      var x :| x in left;
      Drawn(s, left, x, walk);
      left := left - {x};
      walk := walk + [x];
    }
    assert s - left == s;
    var a := new string[|walk|](i requires 0 <= i < |walk| => walk[i]);
    assert a[..] == walk;
    SortInPlace(a, Lex);
    WalkOrderIrrelevant(walk, s);
    r := a[..];
  }

  function SetOf(ts: seq<string>): set<string> { set t | t in ts }

  lemma SetOfSorted(s: set<string>)
    ensures SetOf(SortedNames(s)) == s
  {
    SortedNamesMembers(s);
  }

  // ---------- the evidence panel ----------

  datatype Panel = Panel(required: seq<string>, present: seq<string>, missing: seq<string>)

  function NonEmpty(ts: seq<string>): set<string> { set t | t in ts && t != "" }

  ghost function EvidencePanel(required: seq<string>, present: seq<string>): Panel {
    Panel(SortedNames(NonEmpty(required)), SortedNames(NonEmpty(present)), SortedNames(NonEmpty(required) - NonEmpty(present)))
  }

  /** The panel's lists are sorted, hold each text once, and hold: what is required, what is present, and
      what is required and not present - empty texts counting for nothing. */
  lemma PanelSays(required: seq<string>, present: seq<string>, t: string)
    ensures var p := EvidencePanel(required, present);
            && (t in p.required <==> t in required && t != "")
            && (t in p.present <==> t in present && t != "")
            && (t in p.missing <==> t in required && t != "" && t !in present)
  {
    SortedNamesMembers(NonEmpty(required));
    SortedNamesMembers(NonEmpty(present));
    SortedNamesMembers(NonEmpty(required) - NonEmpty(present));
  }

  function Texts(ts: seq<string>): Value { Arr(seq(|ts|, i requires 0 <= i < |ts| => Str(ts[i]))) }

  function PanelValue(p: Panel): Value {
    Obj([Field("required", Texts(p.required)), Field("present", Texts(p.present)), Field("missing", Texts(p.missing))])
  }

  // ---------- the gate decision ----------

  /** The command line's fallbacks for what a surface's governance does not say. */
  datatype Risk = Risk(score: int, threshold: int, humanRequired: bool, humanApproved: bool)

  datatype Decision = Decision(status: string, risk: Risk, panel: Panel, reasons: seq<string>)

  /** `d.get(key) or {}`; None where its own `get` then raises. */
  function Section(fields: seq<Field>, key: string): Option<seq<Field>> {
    var v := GetOr(fields, key, Null);
    if !Truthy(v) then Some([]) else if v.Obj? then Some(v.fields) else None
  }

  predicate AllText(items: seq<Value>) { forall i :: 0 <= i < |items| ==> items[i].Str? }

  function TextsIn(items: seq<Value>): (r: seq<string>)
    requires AllText(items)
    ensures |r| == |items| && forall i :: 0 <= i < |r| ==> r[i] == items[i].s
  {
    seq(|items|, i requires 0 <= i < |items| => items[i].s)
  }

  /** `set(_listify(v))` for text; None for anything else. */
  function TextSet(v: Value): Option<set<string>> {
    match v
    case Null => Some({})
    case Str(s) => Some({s})
    case Arr(items) => if AllText(items) then Some(SetOf(TextsIn(items))) else None
    case _ => None
  }

  function RiskOf(gov: seq<Field>, args: Risk): Option<Risk> {
    var score, threshold := IntOf(GetOr(gov, "riskScore", Num(args.score))), IntOf(GetOr(gov, "riskThreshold", Num(args.threshold)));
    if score.None? || threshold.None? then None
    else Some(Risk(score.value, threshold.value, Truthy(GetOr(gov, "humanApprovalRequired", Bool(args.humanRequired))),
                   Truthy(GetOr(gov, "humanApproved", Bool(args.humanApproved)))))
  }

  function MissingReasons(missing: seq<string>): (r: seq<string>)
    ensures |r| == |missing|
  {
    if missing == [] then []
    else MissingReasons(missing[..|missing| - 1]) + ["missing required evidence: " + missing[|missing| - 1]]
  }

  function ScoreReasons(r: Risk): seq<string> {
    if r.score > r.threshold then ["risk score " + Decimal(r.score) + " exceeds threshold " + Decimal(r.threshold)] else []
  }

  function HumanReasons(r: Risk): seq<string> {
    if r.humanRequired && !r.humanApproved then ["human approval required but not present"] else []
  }

  function StatusOf(missing: seq<string>, r: Risk): string {
    if r.score > r.threshold || (r.humanRequired && !r.humanApproved) then "deny"
    else if missing != [] then "needs_more_evidence"
    else "permit"
  }

  /** None where the surface's shape makes the computation raise. */
  ghost function GateOf(to: seq<Field>, args: Risk): Option<Decision> {
    var ev, gov := Section(to, "evidence"), Section(to, "governance");
    if ev.None? || gov.None? then None
    else
      var required, present := TextSet(GetOr(ev.value, "required", Null)), TextSet(GetOr(ev.value, "present", Null));
      var risk := RiskOf(gov.value, args);
      if required.None? || present.None? || risk.None? then None
      else
        var missing := SortedNames(required.value - present.value);
        Some(Decision(StatusOf(missing, risk.value), risk.value,
                      Panel(SortedNames(required.value), SortedNames(present.value), missing),
                      MissingReasons(missing) + ScoreReasons(risk.value) + HumanReasons(risk.value)))
  }

  /** Starts from a permit and takes it back reason by reason. */
  method ComputeGate(to: seq<Field>, args: Risk) returns (d: Option<Decision>)
    ensures d == GateOf(to, args)
  {
    hide SortedNames, Section, TextSet, RiskOf;
    var ev, gov := Section(to, "evidence"), Section(to, "governance");
    if ev.None? || gov.None? {
      return None;
    }
    var required, present := TextSet(GetOr(ev.value, "required", Null)), TextSet(GetOr(ev.value, "present", Null));
    var risk := RiskOf(gov.value, args);
    if required.None? || present.None? || risk.None? {
      return None;
    }
    var missing := SortedSet(required.value - present.value);
    var r := risk.value;
    var status, reasons := "permit", [];
    if missing != [] {
      status := "needs_more_evidence";
      for i := 0 to |missing|
        invariant reasons == MissingReasons(missing[..i])
      {
        assert missing[..i + 1][..i] == missing[..i];
        reasons := reasons + ["missing required evidence: " + missing[i]];
      }
    }
    assert missing[..|missing|] == missing;
    if r.score > r.threshold {
      status := "deny";
      reasons := reasons + ["risk score " + Decimal(r.score) + " exceeds threshold " + Decimal(r.threshold)];
    }
    if r.humanRequired && !r.humanApproved {
      status := "deny";
      reasons := reasons + ["human approval required but not present"];
    }
    assert reasons == MissingReasons(missing) + ScoreReasons(r) + HumanReasons(r);
    var sortedRequired := SortedSet(required.value);
    var sortedPresent := SortedSet(present.value);
    return Some(Decision(status, r, Panel(sortedRequired, sortedPresent, missing), reasons));
  }

  lemma StatusesDiffer()
    ensures "permit" != "deny" && "permit" != "needs_more_evidence" && "deny" != "needs_more_evidence"
  {
    assert |"permit"| == 6 && |"deny"| == 4 && |"needs_more_evidence"| == 19;
  }

  /** The gate permits exactly when it gives no reason, and that is exactly when all required evidence is
      present, the risk is within its threshold and any required approval has been given. */
  lemma PermitIff(to: seq<Field>, args: Risk, d: Decision)
    requires GateOf(to, args) == Some(d)
    ensures d.status == "permit" <==> d.reasons == []
    ensures d.status == "permit" <==>
            && SetOf(d.panel.required) <= SetOf(d.panel.present)
            && d.risk.score <= d.risk.threshold
            && (d.risk.humanRequired ==> d.risk.humanApproved)
    ensures d.status == "deny" <==> d.risk.score > d.risk.threshold || (d.risk.humanRequired && !d.risk.humanApproved)
    ensures SetOf(d.panel.missing) == SetOf(d.panel.required) - SetOf(d.panel.present)
  {
    hide SortedNames, RiskOf, Section, TextSet;
    StatusesDiffer();
    var ev := Section(to, "evidence").value;
    var required, present := TextSet(GetOr(ev, "required", Null)).value, TextSet(GetOr(ev, "present", Null)).value;
    SetOfSorted(required);
    SetOfSorted(present);
    SetOfSorted(required - present);
    EmptyWhen(required - present);
    NothingLeft(required, present);
  }

  lemma NothingLeft(a: set<string>, b: set<string>)
    ensures a - b == {} <==> a <= b
  {
    if a - b == {} {
      forall x | x in a
        ensures x in b
      {
        assert x !in a - b;
      }
    }
  }

  lemma EmptyWhen(s: set<string>)
    ensures SortedNames(s) == [] <==> s == {}
  {
    SetOfSorted(s);
    if s != {} {
      var x :| x in s;
      assert x in SetOf(SortedNames(s));
    }
  }

  // ---------- surfaces and deltas ----------

  /** What a truth surface says besides its evidence and governance, in two runs of fields. */
  datatype Frame = Frame(before: seq<Field>, between: seq<Field>)

  predicate Apart(f: Frame) {
    forall i :: 0 <= i < |f.before + f.between| ==> (f.before + f.between)[i].key !in {"evidence", "governance"}
  }

  function Governance(policy: Value, r: Risk): Value {
    Obj([Field("policyPackDigest", policy), Field("riskScore", Num(r.score)), Field("riskThreshold", Num(r.threshold)),
         Field("humanApprovalRequired", Bool(r.humanRequired)), Field("humanApproved", Bool(r.humanApproved))])
  }

  function SurfaceFields(f: Frame, panel: Panel, policy: Value, r: Risk): seq<Field> {
    f.before + ([Field("evidence", PanelValue(panel))] + (f.between + [Field("governance", Governance(policy, r))]))
  }

  ghost function SurfaceOf(f: Frame, required: seq<string>, present: seq<string>, policy: Value, r: Risk, blobs: seq<string>,
                           h: Hasher): seq<Field> {
    Seal(DropFields(SurfaceFields(f, EvidencePanel(required, present), policy, r)), blobs, h)
  }

  /** Assembles a truth surface, drops its nulls and seals it. */
  method BuildSurface(f: Frame, required: seq<string>, present: seq<string>, policy: Value, r: Risk, blobs: seq<string>, h: Hasher)
    returns (surface: seq<Field>)
    ensures surface == SurfaceOf(f, required, present, policy, r, blobs, h)
  {
    hide Put, Without, DropFields, SurfaceFields, SortedNames;
    var req := SortedSet(NonEmpty(required));
    var pres := SortedSet(NonEmpty(present));
    var missing := SortedSet(NonEmpty(required) - NonEmpty(present));
    surface := DropFields(SurfaceFields(f, Panel(req, pres, missing), policy, r));
    var stripped := Without(Without(surface, SIGNATURE), ROOT);
    var root := ComputeMerkleRoot(stripped, blobs, h);
    surface := Put(surface, ROOT, Str(root));
    surface := Put(surface, SIGNATURE, Str(SignatureOf(stripped, h)));
  }

  function DecisionValue(d: Decision): Value {
    Obj([Field("status", Str(d.status)), Field("riskScore", Num(d.risk.score)), Field("riskThreshold", Num(d.risk.threshold)),
         Field("humanApprovalRequired", Bool(d.risk.humanRequired)), Field("humanApproved", Bool(d.risk.humanApproved)),
         Field("evidenceRequired", Texts(d.panel.required)), Field("evidencePresent", Texts(d.panel.present)),
         Field("evidenceMissing", Texts(d.panel.missing)), Field("reasons", Texts(d.reasons))])
  }

  ghost function DeltaOf(f: Frame, to: seq<Field>, args: Risk, h: Hasher): Option<seq<Field>> {
    var d := GateOf(to, args);
    if d.None? then None
    else Some(Seal(DropFields(f.before + ([Field("gate", DecisionValue(d.value))] + f.between)), [], h))
  }

  /** Decides the gate, assembles a delta around it, drops its nulls and seals it. */
  method BuildDelta(f: Frame, to: seq<Field>, args: Risk, h: Hasher) returns (delta: Option<seq<Field>>)
    ensures delta == DeltaOf(f, to, args, h)
  {
    hide Put, Without, DropFields, DecisionValue, GateOf;
    var gate := ComputeGate(to, args);
    if gate.None? {
      return None;
    }
    var fields := DropFields(f.before + ([Field("gate", DecisionValue(gate.value))] + f.between));
    var stripped := Without(Without(fields, SIGNATURE), ROOT);
    var root := ComputeMerkleRoot(stripped, [], h);
    fields := Put(fields, ROOT, Str(root));
    fields := Put(fields, SIGNATURE, Str(SignatureOf(stripped, h)));
    return Some(fields);
  }

  lemma KeysDiffer()
    ensures "evidence" != "governance" && "gate" != ROOT && "gate" != SIGNATURE
    ensures "evidence" != ROOT && "evidence" != SIGNATURE && "governance" != ROOT && "governance" != SIGNATURE
  {
    assert |"evidence"| == 8 && |"governance"| == 10 && |"gate"| == 4 && |ROOT| == 10 && |SIGNATURE| == 9;
    assert "governance"[0] == 'g' && ROOT[0] == 'm';
  }

  lemma NullFreeTexts(ts: seq<string>)
    ensures NullFree(Texts(ts))
  {
  }

  lemma PanelNullFree(p: Panel)
    ensures NullFree(PanelValue(p))
  {
    NullFreeTexts(p.required);
    NullFreeTexts(p.present);
    NullFreeTexts(p.missing);
  }

  lemma DecisionNullFree(d: Decision)
    ensures NullFree(DecisionValue(d))
  {
    NullFreeTexts(d.panel.required);
    NullFreeTexts(d.panel.present);
    NullFreeTexts(d.panel.missing);
    NullFreeTexts(d.reasons);
  }

  lemma TextSetOf(ts: seq<string>)
    ensures TextSet(Texts(ts)) == Some(SetOf(ts))
  {
    assert TextsIn(Texts(ts).items) == ts;
  }

  /** A sealed surface still shows the panel it was given, and its governance without nulls. */
  lemma SurfaceShows(f: Frame, panel: Panel, policy: Value, r: Risk, blobs: seq<string>, h: Hasher)
    requires Apart(f)
    ensures var s := Seal(DropFields(SurfaceFields(f, panel, policy, r)), blobs, h);
            && Lookup(s, "evidence") == Some(PanelValue(panel))
            && Lookup(s, "governance") == Some(DropNulls(Governance(policy, r)))
  {
    hide Seal, DropFields, DropNulls, PanelValue, Governance, NullFree, Lookup;
    var fields := SurfaceFields(f, panel, policy, r);
    KeysDiffer();
    SealCertifies(DropFields(fields), blobs, h);
    SurfaceLooksUp(f, panel, policy, r);
    LookupDropped(fields, "evidence");
    LookupDropped(fields, "governance");
    PanelNullFree(panel);
    DropNullsFixes(PanelValue(panel));
    AreObjects(panel, policy, r);
  }

  lemma AreObjects(panel: Panel, policy: Value, r: Risk)
    ensures PanelValue(panel).Obj? && Governance(policy, r).Obj?
  {
  }

  lemma SurfaceLooksUp(f: Frame, panel: Panel, policy: Value, r: Risk)
    requires Apart(f)
    ensures Lookup(SurfaceFields(f, panel, policy, r), "evidence") == Some(PanelValue(panel))
    ensures Lookup(SurfaceFields(f, panel, policy, r), "governance") == Some(Governance(policy, r))
  {
    hide PanelValue, Governance, Lookup;
    var ev, gov := Field("evidence", PanelValue(panel)), Field("governance", Governance(policy, r));
    KeysDiffer();
    forall key | key in {"evidence", "governance"}
      ensures Lookup(f.before, key).None? && Lookup(f.between, key).None?
    {
      AbsentKey(f.before, key, f);
      AbsentKey(f.between, key, f);
    }
    forall key | key in {"evidence", "governance"}
      ensures Lookup(f.before + ([ev] + (f.between + [gov])), key)
           == if key == "evidence" then Some(ev.value) else Lookup([gov] + [], key)
    {
      LookupConcat(f.before, [ev] + (f.between + [gov]), key);
      LookupCons(ev, f.between + [gov], key);
      LookupConcat(f.between, [gov], key);
      assert [gov] + [] == [gov];
    }
    LookupCons(gov, [], "governance");
  }

  lemma AbsentKey(fields: seq<Field>, key: string, f: Frame)
    requires Apart(f) && (fields == f.before || fields == f.between) && key in {"evidence", "governance"}
    ensures Lookup(fields, key).None?
  {
    var all := f.before + f.between;
    forall x | x in fields
      ensures x.key != key
    {
      assert x in all;
    }
  }

  lemma PanelReads(p: Panel)
    ensures Truthy(PanelValue(p))
    ensures GetOr(PanelValue(p).fields, "required", Null) == Texts(p.required)
    ensures GetOr(PanelValue(p).fields, "present", Null) == Texts(p.present)
  {
    var fields := PanelValue(p).fields;
    LookupCons(fields[0], fields[1..], "required");
    assert "required" != "present" by { assert |"required"| != |"present"|; }
    LookupCons(fields[0], fields[1..], "present");
    LookupCons(fields[1], fields[2..], "present");
    assert fields == [fields[0]] + fields[1..] && fields[1..] == [fields[1]] + fields[2..];
  }

  lemma FiveFields(a: Field, b: Field, c: Field, d: Field, e: Field, key: string)
    ensures Lookup([a, b, c, d, e], key)
         == if a.key == key then Some(a.value) else if b.key == key then Some(b.value) else if c.key == key then Some(c.value)
            else if d.key == key then Some(d.value) else if e.key == key then Some(e.value) else None
  {
    hide Lookup;
    assert [a, b, c, d, e] == [a] + [b, c, d, e] && [b, c, d, e] == [b] + [c, d, e] && [c, d, e] == [c] + [d, e];
    assert [d, e] == [d] + [e] && [e] == [e] + [];
    LookupCons(a, [b, c, d, e], key);
    LookupCons(b, [c, d, e], key);
    LookupCons(c, [d, e], key);
    LookupCons(d, [e], key);
    LookupCons(e, [], key);
    NoFields(key);
  }

  lemma NoFields(key: string)
    ensures Lookup([], key) == None
  {
  }

  lemma KeptField(fields: seq<Field>, f: Field)
    requires Lookup(fields, f.key) == Some(f.value) && !f.value.Null? && NullFree(f.value)
    ensures Lookup(DropFields(fields), f.key) == Some(f.value)
  {
    LookupDropped(fields, f.key);
    DropNullsFixes(f.value);
  }

  lemma RiskKeysDiffer()
    ensures "policyPackDigest" !in {"riskScore", "riskThreshold", "humanApprovalRequired", "humanApproved"}
    ensures "riskScore" !in {"riskThreshold", "humanApprovalRequired", "humanApproved"}
    ensures "riskThreshold" !in {"humanApprovalRequired", "humanApproved"} && "humanApprovalRequired" != "humanApproved"
  {
    assert |"policyPackDigest"| == 16 && |"riskScore"| == 9 && |"humanApprovalRequired"| == 21;
    assert |"riskThreshold"| == 13 && |"humanApproved"| == 13;
    assert "riskThreshold"[0] == 'r' && "humanApproved"[0] == 'h';
  }

  lemma GovernanceReads(policy: Value, r: Risk, args: Risk)
    ensures var gov := DropNulls(Governance(policy, r));
            gov.Obj? && Truthy(gov) && RiskOf(gov.fields, args) == Some(r)
  {
    hide Lookup, DropFields, NullFree;
    var p, a, b := Field("policyPackDigest", policy), Field("riskScore", Num(r.score)), Field("riskThreshold", Num(r.threshold));
    var c, d := Field("humanApprovalRequired", Bool(r.humanRequired)), Field("humanApproved", Bool(r.humanApproved));
    var fields := [p, a, b, c, d];
    RiskKeysDiffer();
    FiveFields(p, a, b, c, d, a.key);
    FiveFields(p, a, b, c, d, b.key);
    FiveFields(p, a, b, c, d, c.key);
    FiveFields(p, a, b, c, d, d.key);
    ScalarsNullFree(r);
    KeptField(fields, a);
    KeptField(fields, b);
    KeptField(fields, c);
    KeptField(fields, d);
    FoundIsNotEmpty(DropFields(fields), a.key);
  }

  lemma ScalarsNullFree(r: Risk)
    ensures NullFree(Num(r.score)) && NullFree(Num(r.threshold)) && NullFree(Bool(r.humanRequired)) && NullFree(Bool(r.humanApproved))
  {
  }

  lemma FoundIsNotEmpty(fields: seq<Field>, key: string)
    requires Lookup(fields, key).Some?
    ensures fields != []
  {
  }

  /** A surface from `build_surface` always gets a decision, whatever the command line's fallbacks: its
      evidence panel is the surface's own - so the delta's missing evidence is the surface's - and so is
      its risk. It is a permit exactly when the surface misses nothing, scores within its threshold and
      has any approval it requires. */
  lemma SurfaceDecides(f: Frame, required: seq<string>, present: seq<string>, policy: Value, r: Risk, blobs: seq<string>,
                       h: Hasher, args: Risk)
    requires Apart(f)
    ensures var d := GateOf(SurfaceOf(f, required, present, policy, r, blobs, h), args);
            && d.Some?
            && d.value.panel == EvidencePanel(required, present)
            && d.value.risk == r
            && (d.value.status == "permit" <==>
                NonEmpty(required) <= NonEmpty(present) && r.score <= r.threshold && (r.humanRequired ==> r.humanApproved))
  {
    hide Seal, DropFields, DropNulls, SurfaceFields, Governance, RiskOf, PanelValue, SortedNames, TextSet, Texts, SetOf, NonEmpty,
         MissingReasons;
    var panel := EvidencePanel(required, present);
    var s := SurfaceOf(f, required, present, policy, r, blobs, h);
    SurfaceShows(f, panel, policy, r, blobs, h);
    GovernanceReads(policy, r, args);
    AreObjects(panel, policy, r);
    PanelReads(panel);
    TextSetOf(panel.required);
    TextSetOf(panel.present);
    SetOfSorted(NonEmpty(required));
    SetOfSorted(NonEmpty(present));
    PermitIff(s, args, GateOf(s, args).value);
  }

  /** An emitted delta certifies itself, holds no null but in its seals' company, and shows the decision
      it was built on. */
  lemma DeltaCertifies(f: Frame, to: seq<Field>, args: Risk, h: Hasher)
    requires DeltaOf(f, to, args, h).Some?
    requires Lookup(f.before, "gate").None?
    ensures var delta := DeltaOf(f, to, args, h).value;
            && Certifies(delta, [], h)
            && NullFree(Obj(Unsealed(delta)))
            && Lookup(delta, "gate") == Some(DecisionValue(GateOf(to, args).value))
  {
    hide Seal, DropNulls, GateOf, DecisionValue, NullFree, Lookup, Unsealed, Certifies;
    var d := DecisionValue(GateOf(to, args).value);
    var gate := Field("gate", d);
    var fields := f.before + ([gate] + f.between);
    SealCertifies(DropFields(fields), [], h);
    KeysDiffer();
    DecisionNullFree(GateOf(to, args).value);
    DropNullsFixes(d);
    LookupConcat(f.before, [gate] + f.between, "gate");
    LookupCons(gate, f.between, "gate");
    LookupDropped(fields, "gate");
    DropFieldsFixes(fields);
    UnsealedNullFree(DropFields(fields));
    DecisionObject(GateOf(to, args).value);
  }

  lemma DecisionObject(d: Decision)
    ensures DecisionValue(d).Obj?
  {
  }

  lemma {:induction false} WithoutNullFree(fields: seq<Field>, key: string)
    requires NullFree(Obj(fields))
    ensures NullFree(Obj(Without(fields, key)))
  {
    if fields != [] {
      assert fields == [fields[0]] + fields[1..];
      NullFreeFields(fields[0], fields[1..]);
      WithoutNullFree(fields[1..], key);
      NullFreeFields(fields[0], Without(fields[1..], key));
    }
  }

  lemma UnsealedNullFree(fields: seq<Field>)
    requires NullFree(Obj(fields))
    ensures NullFree(Obj(Unsealed(fields)))
  {
    hide NullFree;
    WithoutNullFree(fields, SIGNATURE);
    WithoutNullFree(Without(fields, SIGNATURE), ROOT);
  }
}
