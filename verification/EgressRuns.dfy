/** What holds of the egress gate over every run of its operations. */
module EgressRuns {
  import opened Egress
  import opened GateStore
  import opened Json
  import opened Nft
  import opened Options
  import opened Text

  /** A gate as `init` leaves it; the kernel may hold anything. */
  function Fresh(k: Kernel): Gate { Gate(Tables(map[], []), k, []) }

  // ---------- the audit log counts what the tables hold ----------

  function Installs(audit: seq<Record>): nat {
    if audit == [] then 0
    else Installs(audit[..|audit| - 1]) + if audit[|audit| - 1].GrantInstalled? then 1 else 0
  }

  function Removals(audit: seq<Record>): nat {
    if audit == [] then 0
    else Removals(audit[..|audit| - 1]) + if audit[|audit| - 1].GrantPruned? then audit[|audit| - 1].removed else 0
  }

  predicate DistinctKeys(grants: seq<Row>) {
    grants == []
    || (DistinctKeys(grants[..|grants| - 1]) && !HasKey(grants[..|grants| - 1], KeyOf(grants[|grants| - 1])))
  }

  predicate Known(s: Tables) { forall i :: 0 <= i < |s.grants| ==> KeyOf(s.grants[i]) in s.replay }

  ghost predicate Conserved(g: Gate) {
    && |g.tables.replay| == Installs(g.audit) == |g.tables.grants| + Removals(g.audit)
    && Known(g.tables)
    && DistinctKeys(g.tables.grants)
  }

  lemma CountsGrow(audit: seq<Record>, r: Record)
    ensures Installs(audit + [r]) == Installs(audit) + if r.GrantInstalled? then 1 else 0
    ensures Removals(audit + [r]) == Removals(audit) + if r.GrantPruned? then r.removed else 0
  {
    assert (audit + [r])[..|audit|] == audit;
  }

  lemma LiveKeys(grants: seq<Row>, now: int, k: Key)
    ensures HasKey(Live(grants, now), k) ==> HasKey(grants, k)
  {
    LiveMembers(grants, now);
    if HasKey(Live(grants, now), k) {
      var i :| 0 <= i < |Live(grants, now)| && KeyOf(Live(grants, now)[i]) == k;
      assert Live(grants, now)[i] in grants;
      var j :| 0 <= j < |grants| && grants[j] == Live(grants, now)[i];
    }
  }

  lemma {:induction false} LiveDistinct(grants: seq<Row>, now: int)
    requires DistinctKeys(grants)
    ensures DistinctKeys(Live(grants, now))
  {
    if grants != [] {
      var n := |grants| - 1;
      var rest := Live(grants[..n], now);
      LiveDistinct(grants[..n], now);
      LiveKeys(grants[..n], now, KeyOf(grants[n]));
      assert (rest + [grants[n]])[..|rest|] == rest;
    }
  }

  lemma PruneConserves(g: Gate, now: int)
    requires Conserved(g)
    ensures Conserved(PruneGate(g, now).gate)
  {
    var grants := g.tables.grants;
    LiveDistinct(grants, now);
    LiveMembers(grants, now);
    var s := PruneStep(g.tables, now);
    forall i | 0 <= i < |s.grants|
      ensures KeyOf(s.grants[i]) in s.replay
    {
      assert s.grants[i] in grants;
    }
    CountsGrow(g.audit, GrantPruned(|grants| - |s.grants|));
  }

  lemma InstallConserves(g: Gate, q: Request, c: Clock)
    requires Conserved(g)
    ensures Conserved(InstallGate(g, q, c).gate)
    ensures InstallGate(g, q, c).reply != Failed(DuplicateGrant)
  {
    var r := InstallStep(g.tables, q, c);
    if r.outcome.Installed? {
      CountsGrow(g.audit, InstalledRecord(r.outcome.grant));
      assert r.tables.grants[..|g.tables.grants|] == g.tables.grants;
    }
  }

  lemma ApplyConserves(g: Gate, at: Attempt)
    requires Conserved(g)
    ensures Conserved(ApplyGate(g, at).gate)
  {
    CountsGrow(g.audit, SetsApplied(ActiveSets(g.tables, at.now)));
  }

  lemma StepConserves(g: Gate, op: Op, pr: Printer)
    requires Conserved(g)
    ensures Conserved(Step(g, op, pr).gate) && Step(g, op, pr).reply != Failed(DuplicateGrant)
  {
    hide Conserved;
    match op {
      case InstallOp(q, c, apply) =>
        InstallConserves(g, q, c);
        if apply.Some? {
          ApplyConserves(InstallGate(g, q, c).gate, apply.value);
        }
      case PruneOp(now, apply) =>
        PruneConserves(g, now);
        if apply.Some? {
          ApplyConserves(PruneGate(g, now).gate, apply.value);
        }
      case ApplyOp(at) =>
        ApplyConserves(g, at);
      case VerifyOp(now, ls) =>
        VerifyConserves(g, now, ls, pr);
    }
  }

  lemma VerifyConserves(g: Gate, now: int, ls: Listings, pr: Printer)
    requires Conserved(g)
    ensures Conserved(VerifyGate(g, now, ls, pr).gate)
  {
    CountsGrow(g.audit, SetsVerified(ActiveSets(g.tables, now)));
  }

  /** Over every run from empty tables, whatever the clocks and the kernel do: there is one replay row
      per recorded installation, every installation is still a grant or was counted by some prune, and
      every grant is known to the replay table. */
  lemma {:induction false} RunConserves(k: Kernel, ops: seq<Op>, pr: Printer)
    ensures Conserved(Run(Fresh(k), ops, pr))
  {
    if ops != [] {
      var n := |ops| - 1;
      RunConserves(k, ops[..n], pr);
      StepConserves(Run(Fresh(k), ops[..n], pr), ops[n], pr);
    }
  }

  // ---------- at most once ----------

  /** The operation gets a grant with this key into the tables; its reply may still report a failed apply. */
  predicate Accepts(g: Gate, op: Op, k: Key) {
    op.InstallOp? && (op.q.tokenId, op.q.nonce) == k && InstallStep(g.tables, op.q, op.clock).outcome.Installed?
  }

  function Acceptances(g: Gate, ops: seq<Op>, k: Key, pr: Printer): nat {
    if ops == [] then 0
    else
      var n := |ops| - 1;
      Acceptances(g, ops[..n], k, pr) + if Accepts(Run(g, ops[..n], pr), ops[n], k) then 1 else 0
  }

  function Once(b: bool): nat { if b then 1 else 0 }

  lemma StepReplay(g: Gate, op: Op, k: Key, pr: Printer)
    ensures k in Step(g, op, pr).gate.tables.replay <==> k in g.tables.replay || Accepts(g, op, k)
    ensures Accepts(g, op, k) ==> k !in g.tables.replay
  {
    hide Live, ActiveSets, ApplyStep, VerifyStep, HasKey, RowOf, Baseline;
  }

  /** A pair is accepted at most once, ever: exactly once if the replay table holds it at the end and did
      not at the start, and never otherwise - for any clock readings and any prunes in between. */
  lemma {:induction false} AcceptedAtMostOnce(g: Gate, ops: seq<Op>, k: Key, pr: Printer)
    ensures Once(k in g.tables.replay) + Acceptances(g, ops, k, pr) == Once(k in Run(g, ops, pr).tables.replay)
  {
    if ops != [] {
      var n := |ops| - 1;
      AcceptedAtMostOnce(g, ops[..n], k, pr);
      StepReplay(Run(g, ops[..n], pr), ops[n], k, pr);
    }
  }

  /** And the first unexpired presentation of a pair is accepted: nothing else stands in the way. */
  lemma AcceptedIff(k: Kernel, ops: seq<Op>, op: Op, pr: Printer)
    requires op.InstallOp?
    ensures var g, key := Run(Fresh(k), ops, pr), (op.q.tokenId, op.q.nonce);
            Accepts(g, op, key) <==> op.q.exp > op.clock.checkedAt && Acceptances(Fresh(k), ops, key, pr) == 0
  {
    hide Run, Acceptances;
    RunConserves(k, ops, pr);
    InstallConserves(Run(Fresh(k), ops, pr), op.q, op.clock);
    AcceptedAtMostOnce(Fresh(k), ops, (op.q.tokenId, op.q.nonce), pr);
  }

  // ---------- the audit log rebuilds the active grants ----------

  /** A row as the audit log shows it, without its installation time. */
  function Undated(r: Row): Row { r.(installedAt := 0) }

  function AllUndated(rows: seq<Row>): (r: seq<Row>)
    ensures |r| == |rows|
  {
    if rows == [] then [] else AllUndated(rows[..|rows| - 1]) + [Undated(rows[|rows| - 1])]
  }

  /** Every grant the audit log says was installed, in order. */
  function Accepted(audit: seq<Record>): seq<Row> {
    if audit == [] then []
    else
      var n := |audit| - 1;
      match audit[n]
      case GrantInstalled(tokenId, nonce, exp, proto, targets, ports) =>
        Accepted(audit[..n]) + [Row(tokenId, nonce, exp, proto, targets, ports, 0)]
      case _ => Accepted(audit[..n])
  }

  lemma AcceptedGrows(audit: seq<Record>, r: Record)
    ensures Accepted(audit + [r])
         == if r.GrantInstalled? then Accepted(audit) + [Row(r.tokenId, r.nonce, r.exp, r.proto, r.targets, r.ports, 0)]
            else Accepted(audit)
  {
    assert (audit + [r])[..|audit|] == audit;
  }

  lemma AllUndatedSnoc(rows: seq<Row>, r: Row)
    ensures AllUndated(rows + [r]) == AllUndated(rows) + [Undated(r)]
  {
    assert (rows + [r])[..|rows|] == rows;
  }

  lemma {:induction false} LiveUndated(rows: seq<Row>, t: int)
    ensures Live(AllUndated(rows), t) == AllUndated(Live(rows, t))
  {
    if rows != [] {
      var n := |rows| - 1;
      LiveUndated(rows[..n], t);
      LiveSnoc(AllUndated(rows[..n]), Undated(rows[n]), t);
      AllUndatedSnoc(Live(rows[..n], t), rows[n]);
    }
  }

  lemma {:induction false} AllUndatedMembers(rows: seq<Row>)
    ensures forall r :: r in rows ==> Undated(r) in AllUndated(rows)
    ensures forall b :: b in AllUndated(rows) ==> exists r :: r in rows && Undated(r) == b
  {
    if rows != [] {
      var n := |rows| - 1;
      AllUndatedMembers(rows[..n]);
      assert rows == rows[..n] + [rows[n]];
      forall b | b in AllUndated(rows)
        ensures exists r :: r in rows && Undated(r) == b
      {
        if b == Undated(rows[n]) {
          assert rows[n] in rows;
        } else {
          assert b in AllUndated(rows[..n]);
          var r :| r in rows[..n] && Undated(r) == b;
          assert r in rows;
        }
      }
    }
  }

  lemma UndatedSets(rows: seq<Row>)
    ensures Addrs(AllUndated(rows)) == Addrs(rows)
    ensures forall udp :: Ports(AllUndated(rows), udp) == Ports(rows, udp)
  {
    AllUndatedMembers(rows);
    forall udp
      ensures Ports(AllUndated(rows), udp) == Ports(rows, udp)
    {
      forall p
        ensures p in Ports(AllUndated(rows), udp) <==> p in Ports(rows, udp)
      {
        if p in Ports(rows, udp) {
          var g, n :| g in rows && (g.proto == "udp") == udp && n in g.ports && p == Decimal(n);
          assert Undated(g) in AllUndated(rows) && n in Undated(g).ports;
        }
      }
    }
    forall a
      ensures a in Addrs(AllUndated(rows)) <==> a in Addrs(rows)
    {
      if a in Addrs(rows) {
        var g, t :| g in rows && t in g.targets && a == DropSlash32(t);
        assert Undated(g) in AllUndated(rows) && t in Undated(g).targets;
      }
    }
  }

  /** No prune in the run looks past `t`. */
  predicate PrunedBy(ops: seq<Op>, t: int) { forall i :: 0 <= i < |ops| && ops[i].PruneOp? ==> ops[i].now <= t }

  predicate Rebuilds(g: Gate, t: int) { Live(AllUndated(g.tables.grants), t) == Live(Accepted(g.audit), t) }

  lemma InstallRebuilds(g: Gate, q: Request, c: Clock, t: int)
    requires Rebuilds(g, t)
    ensures Rebuilds(InstallGate(g, q, c).gate, t)
  {
    hide Live, AllUndated, Accepted, HasKey;
    var r := InstallStep(g.tables, q, c);
    if r.outcome.Installed? {
      var row := RowOf(q, c.storedAt);
      AcceptedGrows(g.audit, InstalledRecord(r.outcome.grant));
      AllUndatedSnoc(g.tables.grants, row);
      LiveSnoc(AllUndated(g.tables.grants), Undated(row), t);
      LiveSnoc(Accepted(g.audit), Undated(row), t);
    }
  }

  lemma PruneRebuilds(g: Gate, now: int, t: int)
    requires Rebuilds(g, t) && now <= t
    ensures Rebuilds(PruneGate(g, now).gate, t)
  {
    var grants := g.tables.grants;
    LiveUndated(grants, t);
    LiveUndated(Live(grants, now), t);
    LiveOfLive(grants, now, t);
    AcceptedGrows(g.audit, GrantPruned(|grants| - |Live(grants, now)|));
  }

  lemma StepRebuilds(g: Gate, op: Op, t: int, pr: Printer)
    requires Rebuilds(g, t) && (op.PruneOp? ==> op.now <= t)
    ensures Rebuilds(Step(g, op, pr).gate, t)
  {
    hide Live, AllUndated, Accepted, InstallStep, ApplyStep, VerifyStep, ActiveSets;
    match op {
      case InstallOp(q, c, apply) =>
        InstallRebuilds(g, q, c, t);
        if apply.Some? {
          var h := InstallGate(g, q, c).gate;
          AcceptedGrows(h.audit, SetsApplied(ActiveSets(h.tables, apply.value.now)));
        }
      case PruneOp(now, apply) =>
        PruneRebuilds(g, now, t);
        if apply.Some? {
          var h := PruneGate(g, now).gate;
          AcceptedGrows(h.audit, SetsApplied(ActiveSets(h.tables, apply.value.now)));
        }
      case ApplyOp(at) =>
        AcceptedGrows(g.audit, SetsApplied(ActiveSets(g.tables, at.now)));
      case VerifyOp(now, ls) =>
        AcceptedGrows(g.audit, SetsVerified(ActiveSets(g.tables, now)));
    }
  }

  lemma {:induction false} RunRebuilds(k: Kernel, ops: seq<Op>, t: int, pr: Printer)
    requires PrunedBy(ops, t)
    ensures Rebuilds(Run(Fresh(k), ops, pr), t)
  {
    if ops != [] {
      var n := |ops| - 1;
      RunRebuilds(k, ops[..n], t, pr);
      StepRebuilds(Run(Fresh(k), ops[..n], pr), ops[n], t, pr);
    }
  }

  /** The audit log alone tells the active sets: at any time no prune of the run looked past, they are
      those of the recorded installations still unexpired. */
  lemma AuditRebuildsActive(k: Kernel, ops: seq<Op>, t: int, pr: Printer)
    requires PrunedBy(ops, t)
    ensures var g := Run(Fresh(k), ops, pr);
            ActiveSets(g.tables, t) == ActiveSets(Tables(map[], Accepted(g.audit)), t)
  {
    hide Run, Live, AllUndated, Accepted;
    var g := Run(Fresh(k), ops, pr);
    RunRebuilds(k, ops, t, pr);
    LiveUndated(g.tables.grants, t);
    UndatedSets(Live(g.tables.grants, t));
  }
}
