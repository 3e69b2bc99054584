/** What a reader finds in surfaces and deltas, and what documents of any shape come to. */
module SurfaceShows {
  import opened Json
  import opened Names
  import opened Options
  import opened Seals
  import opened Surface
  import opened Text
  import opened Nulls

  // ---------- what documents of any shape come to ----------

  /** A section that is absent or false is empty; one that is an object is that; any other raises. */
  lemma SectionSays(fields: seq<Field>, key: string)
    ensures var v := Lookup(fields, key);
            && (v.None? || v.value in {Null, Bool(false), Num(0), Str(""), Arr([]), Obj([])} ==> Section(fields, key) == Some([]))
            && (v.Some? && v.value.Obj? ==> Section(fields, key) == Some(v.value.fields))
            && (v.Some? && !v.value.Obj? && v.value !in {Null, Bool(false), Num(0), Str(""), Arr([])} ==>
                Section(fields, key) == None)
  {
    hide Lookup;
  }

  /** Nothing, one text, or a list of texts. */
  lemma TextSetSays(v: Value)
    ensures TextSet(Null) == Some({})
    ensures v.Str? ==> TextSet(v) == Some({v.s})
    ensures v.Arr? && AllText(v.items) ==>
            TextSet(v).Some? && forall t :: t in TextSet(v).value <==> Str(t) in v.items
    ensures v.Bool? || v.Num? || v.Obj? ==> TextSet(v) == None
  {
    if v.Arr? && AllText(v.items) {
      var ts := TextsIn(v.items);
      forall t
        ensures t in ts <==> Str(t) in v.items
      {
        if t in ts {
          var i :| 0 <= i < |ts| && ts[i] == t;
          assert v.items[i] == Str(t);
        }
        if Str(t) in v.items {
          var i :| 0 <= i < |v.items| && v.items[i] == Str(t);
          assert ts[i] == t;
        }
      }
    }
  }

  /** What governance does not say is what the command line says; what it says is converted. */
  lemma RiskSays(gov: seq<Field>, args: Risk)
    ensures RiskOf([], args) == Some(args)
    ensures RiskOf(gov, args).Some? ==>
            var r := RiskOf(gov, args).value;
            && (Lookup(gov, "riskScore") == None ==> r.score == args.score)
            && (Lookup(gov, "riskThreshold") == None ==> r.threshold == args.threshold)
            && (Lookup(gov, "humanApprovalRequired") == None ==> r.humanRequired == args.humanRequired)
            && (Lookup(gov, "humanApproved") == None ==> r.humanApproved == args.humanApproved)
            && (forall v :: Lookup(gov, "riskScore") == Some(v) ==> IntOf(v) == Some(r.score))
            && (forall v :: Lookup(gov, "riskThreshold") == Some(v) ==> IntOf(v) == Some(r.threshold))
            && (forall v :: Lookup(gov, "humanApprovalRequired") == Some(v) ==> r.humanRequired == Truthy(v))
            && (forall v :: Lookup(gov, "humanApproved") == Some(v) ==> r.humanApproved == Truthy(v))
    ensures RiskOf(gov, args).None? <==>
            || (exists v :: Lookup(gov, "riskScore") == Some(v) && IntOf(v) == None)
            || (exists v :: Lookup(gov, "riskThreshold") == Some(v) && IntOf(v) == None)
  {
    NoFields("riskScore");
    NoFields("riskThreshold");
    NoFields("humanApprovalRequired");
    NoFields("humanApproved");
    hide Lookup;
  }

  lemma {:induction false} MissingReasonsAt(missing: seq<string>, i: nat)
    requires i < |missing|
    ensures MissingReasons(missing)[i] == "missing required evidence: " + missing[i]
  {
    if i < |missing| - 1 {
      MissingReasonsAt(missing[..|missing| - 1], i);
    }
  }

  /** The reasons: one for each missing piece of evidence, in order, then one for the score if it exceeds
      the threshold, then one for an approval that is required and not there. */
  lemma ReasonsSay(to: seq<Field>, args: Risk, d: Decision)
    requires GateOf(to, args) == Some(d)
    ensures var n, r := |d.panel.missing|, d.risk;
            var high, human := r.score > r.threshold, r.humanRequired && !r.humanApproved;
            && |d.reasons| == n + (if high then 1 else 0) + (if human then 1 else 0)
            && (forall i :: 0 <= i < n ==> d.reasons[i] == "missing required evidence: " + d.panel.missing[i])
            && (high ==> d.reasons[n] == "risk score " + Decimal(r.score) + " exceeds threshold " + Decimal(r.threshold))
            && (human ==> d.reasons[|d.reasons| - 1] == "human approval required but not present")
  {
    hide SortedNames, Section, TextSet, RiskOf, Decimal;
    forall i | 0 <= i < |d.panel.missing|
      ensures MissingReasons(d.panel.missing)[i] == "missing required evidence: " + d.panel.missing[i]
    {
      MissingReasonsAt(d.panel.missing, i);
    }
  }

  // ---------- what an emitted delta shows ----------

  const DECISION_KEYS: seq<string> :=
    ["status", "riskScore", "riskThreshold", "humanApprovalRequired", "humanApproved", "evidenceRequired",
     "evidencePresent", "evidenceMissing", "reasons"]

  lemma DecisionKeysDiffer(i: nat, j: nat)
    requires i < j < 9
    ensures DECISION_KEYS[i] != DECISION_KEYS[j]
  {
    var lengths := [6, 9, 13, 21, 13, 16, 15, 15, 7];
    DecisionKeyLengths(lengths);
    if lengths[i] == lengths[j] {
      assert (i == 2 && j == 4) || (i == 6 && j == 7);
      assert "riskThreshold"[0] == 'r' && "humanApproved"[0] == 'h';
      assert "evidencePresent"[8] == 'P' && "evidenceMissing"[8] == 'M';
    }
  }

  lemma DecisionKeyLengths(lengths: seq<nat>)
    requires lengths == [6, 9, 13, 21, 13, 16, 15, 15, 7]
    ensures |DECISION_KEYS| == 9 && forall i :: 0 <= i < 9 ==> |DECISION_KEYS[i]| == lengths[i]
  {
    assert |"status"| == 6 && |"riskScore"| == 9 && |"riskThreshold"| == 13 && |"humanApprovalRequired"| == 21;
    assert |"humanApproved"| == 13 && |"evidenceRequired"| == 16 && |"evidencePresent"| == 15 && |"evidenceMissing"| == 15;
    assert |"reasons"| == 7;
  }

  lemma DecisionField(d: Decision, i: nat)
    requires i < 9
    ensures var fields := DecisionValue(d).fields;
            |fields| == 9 && fields[i].key == DECISION_KEYS[i] && Lookup(fields, fields[i].key) == Some(fields[i].value)
  {
    hide Lookup, Texts;
    var fields := DecisionValue(d).fields;
    assert forall k :: 0 <= k < 9 ==> fields[k].key == DECISION_KEYS[k];
    forall j | 0 <= j < i
      ensures fields[j].key != fields[i].key
    {
      DecisionKeysDiffer(j, i);
    }
    LookupFirst(fields, i);
  }

  /** Every part of a decision is shown under its own name. */
  lemma DecisionReads(d: Decision)
    ensures var f := DecisionValue(d).fields;
            && Lookup(f, "status") == Some(Str(d.status))
            && Lookup(f, "riskScore") == Some(Num(d.risk.score)) && Lookup(f, "riskThreshold") == Some(Num(d.risk.threshold))
            && Lookup(f, "humanApprovalRequired") == Some(Bool(d.risk.humanRequired))
            && Lookup(f, "humanApproved") == Some(Bool(d.risk.humanApproved))
            && Lookup(f, "evidenceRequired") == Some(Texts(d.panel.required))
            && Lookup(f, "evidencePresent") == Some(Texts(d.panel.present))
            && Lookup(f, "evidenceMissing") == Some(Texts(d.panel.missing))
            && Lookup(f, "reasons") == Some(Texts(d.reasons))
  {
    hide Lookup, Texts;
    DecisionField(d, 0);
    DecisionField(d, 1);
    DecisionField(d, 2);
    DecisionField(d, 3);
    DecisionField(d, 4);
    DecisionField(d, 5);
    DecisionField(d, 6);
    DecisionField(d, 7);
    DecisionField(d, 8);
  }

  /** A list of texts shows just those. */
  lemma TextsReads(ts: seq<string>)
    ensures Texts(ts).Arr? && |Texts(ts).items| == |ts| && forall i :: 0 <= i < |ts| ==> Texts(ts).items[i] == Str(ts[i])
    ensures Texts(ts) == Arr([]) <==> ts == []
  {
  }

  lemma PanelMissing(p: Panel)
    ensures Lookup(PanelValue(p).fields, "missing") == Some(Texts(p.missing))
  {
    hide Texts;
    var fields := PanelValue(p).fields;
    assert |"required"| == 8 && |"present"| == 7 && |"missing"| == 7 && "present"[0] == 'p' && "missing"[0] == 'm';
    LookupFirst(fields, 2);
  }

  /** A surface shows its policy's digest, if it has one, next to its risk. */
  lemma PolicyReads(policy: Value, r: Risk)
    ensures policy != Null ==>
            var gov := DropNulls(Governance(policy, r)); gov.Obj? && Lookup(gov.fields, "policyPackDigest") == Some(DropNulls(policy))
    ensures policy == Null ==>
            var gov := DropNulls(Governance(policy, r)); gov.Obj? && Lookup(gov.fields, "policyPackDigest") == None
  {
    hide Lookup, DropFields;
    var fields := Governance(policy, r).fields;
    var p, a, b := fields[0], fields[1], fields[2];
    RiskKeysDiffer();
    FiveFields(p, a, b, fields[3], fields[4], "policyPackDigest");
    LookupDropped(fields, "policyPackDigest");
    if policy == Null {
      NullFirstGone(p, fields[1..]);
      assert fields == [p] + fields[1..];
      RestHasNoPolicy(r);
      LookupDropped(fields[1..], "policyPackDigest");
    }
  }

  lemma NullFirstGone(f: Field, rest: seq<Field>)
    requires f.value.Null?
    ensures DropFields([f] + rest) == DropFields(rest)
  {
    assert ([f] + rest)[1..] == rest;
  }

  lemma RestHasNoPolicy(r: Risk)
    ensures Lookup(Governance(Null, r).fields[1..], "policyPackDigest") == None
  {
    hide Lookup;
    var f := Governance(Null, r).fields;
    RiskKeysDiffer();
    FiveFields(f[1], f[2], f[3], f[4], f[4], "policyPackDigest");
    LookupAppend(f[1..], [f[4]], "policyPackDigest");
    assert f[1..] + [f[4]] == [f[1], f[2], f[3], f[4], f[4]];
  }

  /** The gate as a reader of the emitted delta finds it. */
  ghost predicate Shows(delta: seq<Field>, gate: seq<Field>) { Lookup(delta, "gate") == Some(Obj(gate)) }

  /** The gate of an emitted delta, looked up in the delta: a permit, with no reasons, exactly when required
      evidence is present, the score is within the threshold and any required approval was given; a denial
      exactly for the latter two; the numbers and flags it was decided on. */
  lemma DeltaShows(f: Frame, to: seq<Field>, args: Risk, h: Hasher, gate: seq<Field>)
    requires DeltaOf(f, to, args, h).Some? && Lookup(f.before, "gate").None?
    requires Shows(DeltaOf(f, to, args, h).value, gate)
    ensures var d := GateOf(to, args).value;
            var met := SetOf(d.panel.required) <= SetOf(d.panel.present);
            var over, human := d.risk.score > d.risk.threshold, d.risk.humanRequired && !d.risk.humanApproved;
            && Lookup(gate, "status") == Some(Str(if over || human then "deny" else if met then "permit" else "needs_more_evidence"))
            && (Lookup(gate, "reasons") == Some(Arr([])) <==> met && !over && !human)
            && Lookup(gate, "riskScore") == Some(Num(d.risk.score)) && Lookup(gate, "riskThreshold") == Some(Num(d.risk.threshold))
            && Lookup(gate, "humanApprovalRequired") == Some(Bool(d.risk.humanRequired))
            && Lookup(gate, "humanApproved") == Some(Bool(d.risk.humanApproved))
            && Lookup(gate, "evidenceMissing") == Some(Texts(d.panel.missing))
  {
    hide Lookup, GateOf, Texts, DeltaOf, SetOf;
    GateOfDelta(f, to, args, h);
    var d := GateOf(to, args).value;
    DeltaCertifies(f, to, args, h);
    DecisionReads(d);
    DecisionObject(d);
    PermitIff(to, args, d);
    StatusIs(to, args, d);
    TextsReads(d.reasons);
  }

  lemma GateOfDelta(f: Frame, to: seq<Field>, args: Risk, h: Hasher)
    ensures DeltaOf(f, to, args, h).Some? <==> GateOf(to, args).Some?
  {
    hide GateOf;
  }

  lemma StatusIs(to: seq<Field>, args: Risk, d: Decision)
    requires GateOf(to, args) == Some(d)
    ensures d.status in {"permit", "deny", "needs_more_evidence"}
  {
    hide SortedNames, Section, TextSet, RiskOf, MissingReasons;
  }

  /** From surface to delta: whatever the command line of the delta says, the gate looked up in the delta is
      of the surface's own evidence and risk, and its missing evidence is the list found under `missing` in
      the evidence of the surface. */
  lemma DeltaOfSurfaceShows(fs: Frame, required: seq<string>, present: seq<string>, policy: Value, r: Risk, blobs: seq<string>,
                            f: Frame, args: Risk, h: Hasher, gate: seq<Field>, evidence: seq<Field>)
    requires Apart(fs) && Lookup(f.before, "gate").None?
    requires var to := SurfaceOf(fs, required, present, policy, r, blobs, h);
             && Lookup(to, "evidence") == Some(Obj(evidence))
             && DeltaOf(f, to, args, h).Some? && Shows(DeltaOf(f, to, args, h).value, gate)
    ensures var met := forall t :: t in required && t != "" ==> t in present;
            var over, human := r.score > r.threshold, r.humanRequired && !r.humanApproved;
            && Lookup(gate, "status") == Some(Str(if over || human then "deny" else if met then "permit" else "needs_more_evidence"))
            && (Lookup(gate, "reasons") == Some(Arr([])) <==> met && !over && !human)
            && Lookup(gate, "riskScore") == Some(Num(r.score)) && Lookup(gate, "riskThreshold") == Some(Num(r.threshold))
            && Lookup(gate, "humanApprovalRequired") == Some(Bool(r.humanRequired))
            && Lookup(gate, "humanApproved") == Some(Bool(r.humanApproved))
            && Lookup(gate, "evidenceMissing") == Lookup(evidence, "missing") == Some(Texts(EvidencePanel(required, present).missing))
  {
    hide Lookup, GateOf, Texts, DeltaOf, SetOf, SurfaceOf, PanelValue, EvidencePanel;
    var to, panel := SurfaceOf(fs, required, present, policy, r, blobs, h), EvidencePanel(required, present);
    SurfaceDecides(fs, required, present, policy, r, blobs, h, args);
    DeltaShows(f, to, args, h, gate);
    SurfaceIs(fs, required, present, policy, r, blobs, h);
    SurfaceShows(fs, panel, policy, r, blobs, h);
    PanelMissing(panel);
    PanelMeets(required, present);
  }

  lemma SurfaceIs(f: Frame, required: seq<string>, present: seq<string>, policy: Value, r: Risk, blobs: seq<string>, h: Hasher)
    ensures SurfaceOf(f, required, present, policy, r, blobs, h)
         == Seal(DropFields(SurfaceFields(f, EvidencePanel(required, present), policy, r)), blobs, h)
  {
    hide Seal, DropFields, SurfaceFields, EvidencePanel;
  }

  lemma PanelMeets(required: seq<string>, present: seq<string>)
    ensures var p := EvidencePanel(required, present);
            SetOf(p.required) <= SetOf(p.present) ==> forall t :: t in required && t != "" ==> t in present
    ensures var p := EvidencePanel(required, present);
            SetOf(p.required) <= SetOf(p.present) <== forall t :: t in required && t != "" ==> t in present
  {
    hide SortedNames;
    SetOfSorted(NonEmpty(required));
    SetOfSorted(NonEmpty(present));
    var r, q := NonEmpty(required), NonEmpty(present);
    assert forall t :: t in required && t != "" <==> t in r;
    assert forall t :: t in present && t != "" <==> t in q;
  }
}
