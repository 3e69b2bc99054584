/** The capability membrane and the hash-chained receipt ledger. */
module Governance {
  import opened Codecs
  import opened Options
  import opened Text

  // ---------- the membrane ----------

  type Op = string
  const OP_READ: Op := "read"
  const OP_WRITE: Op := "write"
  const OP_LIST: Op := "list"
  const OP_STAT: Op := "stat"
  const OP_COMMIT: Op := "commit"

  predicate IsWrite(op: Op) { op == OP_WRITE || op == OP_COMMIT }

  /** `expiry == None` is Go's zero time. */
  datatype Lease = Lease(subject: string, space: string, purpose: string,
                         canRead: bool, canWrite: bool, expiry: Option<int>)

  function ReadOnlyLease(subject: string, space: string, purpose: string): Lease {
    Lease(subject, space, purpose, true, false, None)
  }

  function ReadWriteLease(subject: string, space: string, purpose: string): Lease {
    Lease(subject, space, purpose, true, true, None)
  }

  datatype Denial = NoLease | WrongSpace | Expired | LacksWrite | LacksRead

  /** The first reason to refuse, or None to allow. */
  function Check(lease: Option<Lease>, space: string, op: Op, now: int): Option<Denial> {
    match lease
    case None => Some(NoLease)
    case Some(l) =>
      if l.space != space then Some(WrongSpace)
      else if l.expiry.Some? && now > l.expiry.value then Some(Expired)
      else if IsWrite(op) then (if !l.canWrite then Some(LacksWrite) else None)
      else if !l.canRead then Some(LacksRead)
      else None
  }

  /** Fail-closed: an operation passes only under a live lease for this very space that grants
      the operation's own class, and a lease that passes now passed at every earlier time. */
  lemma CheckFailsClosed(lease: Option<Lease>, space: string, op: Op, now: int)
    ensures Check(lease, space, op, now).None? <==>
            && lease.Some? && lease.value.space == space
            && (lease.value.expiry.Some? ==> now <= lease.value.expiry.value)
            && (if op in {OP_WRITE, OP_COMMIT} then lease.value.canWrite else lease.value.canRead)
    ensures forall before :: before <= now && Check(lease, space, op, now).None? ==>
            Check(lease, space, op, before).None?
    ensures forall s, sp, p :: ReadOnlyLease(s, sp, p).(canWrite := true) == ReadWriteLease(s, sp, p)
              && ReadOnlyLease(s, sp, p).subject == s && ReadOnlyLease(s, sp, p).purpose == p && ReadOnlyLease(s, sp, p).expiry == None
    ensures forall s, sp, p, o :: Check(Some(ReadOnlyLease(s, sp, p)), space, o, now).None? <==>
            sp == space && o !in {OP_WRITE, OP_COMMIT}
    ensures forall s, sp, p, o :: Check(Some(ReadWriteLease(s, sp, p)), space, o, now).None? <==> sp == space
  {
  }

  function DenialText(c: Codec, d: Denial, lease: Option<Lease>, space: string, op: Op, path: string): string
    requires d.NoLease? || lease.Some?
    requires d.Expired? ==> lease.value.expiry.Some?
  {
    match d
    case NoLease => "denied: no lease presented for " + op + " on " + c.quote(path)
    case WrongSpace => "denied: lease scoped to space " + c.quote(lease.value.space) + ", mount is space " + c.quote(space)
    case Expired => "denied: lease for " + c.quote(lease.value.subject) + " expired at " + c.date(lease.value.expiry.value)
    case LacksWrite => "denied: lease lacks write capability (" + op + " on " + c.quote(path) + ")"
    case LacksRead => "denied: lease lacks read capability (" + op + " on " + c.quote(path) + ")"
  }

  // ---------- receipts ----------

  datatype Receipt = Receipt(seqNo: nat, prev: string, ts: int, subject: string, space: string,
                             op: Op, path: string, verdict: string, hash: string)

  /** `%d|%s|%s|%s|%s|%s|%s|%s` over every field but the hash. */
  function Payload(c: Codec, r: Receipt): string {
    Numeral(r.seqNo, 10) + [BAR] + (r.prev + [BAR] + (c.stamp(r.ts) + [BAR] + Body(r)))
  }

  function Body(r: Receipt): string {
    r.subject + [BAR] + (r.space + [BAR] + (r.op + [BAR] + (r.path + [BAR] + r.verdict)))
  }

  predicate SameFields(r: Receipt, s: Receipt) { r.(hash := s.hash) == s }

  /** The four free-text fields before the verdict hold equally many delimiters. */
  predicate SameBars(r: Receipt, s: Receipt) {
    && Count(r.subject, BAR) == Count(s.subject, BAR)
    && Count(r.space, BAR) == Count(s.space, BAR)
    && Count(r.op, BAR) == Count(s.op, BAR)
    && Count(r.path, BAR) == Count(s.path, BAR)
  }

  predicate Delimited(r: Receipt) {
    BAR !in r.subject && BAR !in r.space && BAR !in r.op && BAR !in r.path
  }

  lemma NumeralHasNoBar(n: nat)
    ensures BAR !in Numeral(n, 10)
  {
  }

  lemma BodySplits(r: Receipt, s: Receipt)
    requires Body(r) == Body(s) && SameBars(r, s)
    ensures r.subject == s.subject && r.space == s.space && r.op == s.op
    ensures r.path == s.path && r.verdict == s.verdict
  {
    var afterSpace := (x: Receipt) => x.op + [BAR] + (x.path + [BAR] + x.verdict);
    var afterSubject := (x: Receipt) => x.space + [BAR] + afterSpace(x);
    SplitFirst(r.subject, afterSubject(r), s.subject, afterSubject(s), BAR);
    SplitFirst(r.space, afterSpace(r), s.space, afterSpace(s), BAR);
    SplitFirst(r.op, r.path + [BAR] + r.verdict, s.op, s.path + [BAR] + s.verdict, BAR);
    SplitFirst(r.path, r.verdict, s.path, s.verdict, BAR);
  }

  /** Equal payloads of chained receipts mean equal receipts exactly when the delimiter counts of
      subject, space, op and path agree; the verdict, written last, is unrestricted. */
  lemma PayloadDetermines(c: Codec, r: Receipt, s: Receipt)
    requires WellFormed(c)
    requires BAR !in r.prev && BAR !in s.prev
    requires Payload(c, r) == Payload(c, s)
    ensures r.seqNo == s.seqNo && r.prev == s.prev && r.ts == s.ts
    ensures SameFields(r, s) <==> SameBars(r, s)
  {
    var tail := (x: Receipt) => c.stamp(x.ts) + [BAR] + Body(x);
    NumeralHasNoBar(r.seqNo);
    NumeralHasNoBar(s.seqNo);
    SplitFree(Numeral(r.seqNo, 10), r.prev + [BAR] + tail(r), Numeral(s.seqNo, 10), s.prev + [BAR] + tail(s), BAR);
    NumeralInjective(r.seqNo, s.seqNo, 10);
    SplitFree(r.prev, tail(r), s.prev, tail(s), BAR);
    SplitFree(c.stamp(r.ts), Body(r), c.stamp(s.ts), Body(s), BAR);
    if SameBars(r, s) {
      BodySplits(r, s);
    }
  }

  lemma DelimitedSameBars(r: Receipt, s: Receipt)
    requires Delimited(r) && Delimited(s)
    ensures SameBars(r, s)
  {
    CountZero(r.subject, BAR); CountZero(s.subject, BAR);
    CountZero(r.space, BAR); CountZero(s.space, BAR);
    CountZero(r.op, BAR); CountZero(s.op, BAR);
    CountZero(r.path, BAR); CountZero(s.path, BAR);
  }

  // ---------- the chain ----------

  predicate HashOk(c: Codec, r: Receipt) { c.digest(Payload(c, r)) == r.hash }

  function Head(rs: seq<Receipt>): string {
    if rs == [] then "" else rs[|rs| - 1].hash
  }

  predicate LinkOk(rs: seq<Receipt>, i: nat)
    requires i < |rs|
  {
    rs[i].prev == if i == 0 then "" else rs[i - 1].hash
  }

  ghost predicate Accepted(c: Codec, rs: seq<Receipt>) {
    forall i :: 0 <= i < |rs| ==> LinkOk(rs, i) && HashOk(c, rs[i])
  }

  /** What `Verify` reports: a wrong `Prev` (checked first) or a wrong `Hash`, and where. */
  datatype Fault = ChainBroken(at: nat) | Tampered(at: nat)

  /** `f` describes the first bad receipt of `rs`. */
  ghost predicate FailsAt(c: Codec, rs: seq<Receipt>, f: Fault) {
    && f.at < |rs|
    && (forall i :: 0 <= i < f.at ==> LinkOk(rs, i) && HashOk(c, rs[i]))
    && (if f.ChainBroken? then !LinkOk(rs, f.at) else LinkOk(rs, f.at) && !HashOk(c, rs[f.at]))
  }

  /** A chain built by `append` also numbers its receipts. */
  ghost predicate Ledger(c: Codec, rs: seq<Receipt>) {
    Accepted(c, rs) && forall i :: 0 <= i < |rs| ==> rs[i].seqNo == i
  }

  /** The receipt `append` adds to `rs`. */
  function Stamped(c: Codec, rs: seq<Receipt>, subject: string, space: string, op: Op, path: string,
                   verdict: string, now: int): (r: Receipt)
    ensures SameFields(r, Receipt(|rs|, Head(rs), now, subject, space, op, path, verdict, ""))
    ensures HashOk(c, r)
  {
    var r := Receipt(|rs|, Head(rs), now, subject, space, op, path, verdict, "");
    r.(hash := c.digest(Payload(c, r)))
  }

  lemma StampedIs(c: Codec, rs: seq<Receipt>, subject: string, space: string, op: Op, path: string,
                  verdict: string, now: int, r: Receipt)
    requires var s := Receipt(|rs|, Head(rs), now, subject, space, op, path, verdict, "");
             r == s.(hash := c.digest(Payload(c, s)))
    ensures r == Stamped(c, rs, subject, space, op, path, verdict, now) && HashOk(c, r)
  {
  }

  /** Appending a stamped receipt extends a ledger. */
  lemma LedgerGrows(c: Codec, rs: seq<Receipt>, r: Receipt)
    requires Ledger(c, rs) && r.seqNo == |rs| && r.prev == Head(rs) && HashOk(c, r)
    ensures Ledger(c, rs + [r]) && Head(rs + [r]) == r.hash
  {
    hide HashOk;
    var grown := rs + [r];
    forall i | 0 <= i < |grown|
      ensures LinkOk(grown, i) && HashOk(c, grown[i]) && grown[i].seqNo == i
    {
      if i < |rs| {
        assert LinkOk(rs, i) && HashOk(c, rs[i]);
      }
    }
  }

  class ReceiptLog {
    const codec: Codec
    var last: string
    var all: seq<Receipt>

    ghost predicate Valid()
      reads this
    {
      Ledger(codec, all) && last == Head(all)
    }

    constructor (codec: Codec)
      ensures Valid() && all == [] && this.codec == codec
    {
      this.codec := codec;
      last, all := "", [];
    }

    method Append(subject: string, space: string, op: Op, path: string, verdict: string, now: int) returns (r: Receipt)
      requires Valid()
      modifies this
      ensures Valid()
      ensures r == Stamped(codec, old(all), subject, space, op, path, verdict, now)
      ensures all == old(all) + [r]
    {
      hide Payload, HashOk, Ledger;
      r := Receipt(|all|, last, now, subject, space, op, path, verdict, "");
      r := r.(hash := codec.digest(Payload(codec, r)));
      StampedIs(codec, all, subject, space, op, path, verdict, now, r);
      LedgerGrows(codec, all, r);
      last := r.hash;
      all := all + [r];
    }

    /** A copy of the chain. */
    method Entries() returns (out: seq<Receipt>)
      ensures out == all
    {
      out := all;
    }

    /** Walks whatever is stored, valid or not, and reports the first bad receipt. */
    method Verify() returns (err: Option<Fault>)
      ensures err.None? <==> Accepted(codec, all)
      ensures err.Some? ==> FailsAt(codec, all, err.value)
    {
      hide Payload, HashOk, GoodUpTo, FailsAt, Accepted, Ledger;
      var prev, chain := "", all;
      GoodAtEnds(codec, chain);
      for i := 0 to |chain|
        invariant GoodUpTo(codec, chain, i)
        invariant prev == if i == 0 then "" else chain[i - 1].hash
      {
        var r := chain[i];
        HashOkMeans(codec, r);
        GoodNext(codec, chain, i);
        if r.prev != prev {
          return Some(ChainBroken(i));
        }
        var payload := Payload(codec, r);
        if codec.digest(payload) != r.hash {
          return Some(Tampered(i));
        }
        prev := r.hash;
      }
      return None;
    }
  }

  ghost predicate GoodUpTo(c: Codec, rs: seq<Receipt>, n: nat)
    requires n <= |rs|
  {
    forall j :: 0 <= j < n ==> LinkOk(rs, j) && HashOk(c, rs[j])
  }

  lemma GoodAtEnds(c: Codec, rs: seq<Receipt>)
    ensures GoodUpTo(c, rs, 0)
    ensures GoodUpTo(c, rs, |rs|) <==> Accepted(c, rs)
  {
    hide HashOk;
  }

  /** The walk's step: receipt `i` is good, or it is the first bad one and the chain is not accepted. */
  lemma GoodNext(c: Codec, rs: seq<Receipt>, i: nat)
    requires i < |rs| && GoodUpTo(c, rs, i)
    ensures LinkOk(rs, i) && HashOk(c, rs[i]) ==> GoodUpTo(c, rs, i + 1)
    ensures !LinkOk(rs, i) ==> FailsAt(c, rs, ChainBroken(i)) && !Accepted(c, rs)
    ensures LinkOk(rs, i) && !HashOk(c, rs[i]) ==> FailsAt(c, rs, Tampered(i)) && !Accepted(c, rs)
  {
    hide HashOk;
  }

  lemma HashOkMeans(c: Codec, r: Receipt)
    ensures HashOk(c, r) <==> c.digest(Payload(c, r)) == r.hash
  {
  }

  /** A first fault is unique, and exists exactly when the chain is not accepted. */
  lemma FirstFaultUnique(c: Codec, rs: seq<Receipt>, f: Fault, g: Fault)
    requires FailsAt(c, rs, f)
    ensures !Accepted(c, rs)
    ensures FailsAt(c, rs, g) ==> f == g
  {
    hide LinkOk, HashOk;
    assert !(LinkOk(rs, f.at) && HashOk(c, rs[f.at]));
  }

  // ---------- the head hash commits to the history ----------

  /** Two receipts, one of each ledger, with different payloads and the same digest. */
  ghost predicate Collision(c: Codec, a: seq<Receipt>, b: seq<Receipt>) {
    exists i, j :: 0 <= i < |a| && 0 <= j < |b| && Collide(c, a[i], b[j])
  }

  predicate Collide(c: Codec, r: Receipt, s: Receipt) {
    Payload(c, r) != Payload(c, s) && c.digest(Payload(c, r)) == c.digest(Payload(c, s))
  }

  lemma AcceptedPrefix(c: Codec, rs: seq<Receipt>, n: nat)
    requires Accepted(c, rs) && n <= |rs|
    ensures Accepted(c, rs[..n])
  {
    forall i | 0 <= i < n
      ensures LinkOk(rs[..n], i) && HashOk(c, rs[..n][i])
    {
      assert LinkOk(rs, i) && HashOk(c, rs[i]);
    }
  }

  lemma AcceptedPrevHasNoBar(c: Codec, rs: seq<Receipt>, i: nat)
    requires WellFormed(c) && Accepted(c, rs) && i < |rs|
    ensures BAR !in rs[i].prev
    ensures IsHash(rs[i].hash)
    ensures rs[i].prev == Head(rs[..i])
  {
    assert LinkOk(rs, i) && HashOk(c, rs[i]);
    assert IsHash(c.digest(Payload(c, rs[i])));
    if i > 0 {
      assert HashOk(c, rs[i - 1]);
      assert IsHash(c.digest(Payload(c, rs[i - 1])));
    }
  }

  lemma CollisionGrows(c: Codec, a: seq<Receipt>, b: seq<Receipt>, m: nat, n: nat)
    requires m <= |a| && n <= |b| && Collision(c, a[..m], b[..n])
    ensures Collision(c, a, b)
  {
    var i, j :| 0 <= i < m && 0 <= j < n && Collide(c, a[..m][i], b[..n][j]);
    assert Collide(c, a[i], b[j]);
  }

  predicate AllDelimited(rs: seq<Receipt>) {
    forall i :: 0 <= i < |rs| ==> Delimited(rs[i])
  }

  /** The empty string is never a hash. */
  lemma EmptyHead(c: Codec, rs: seq<Receipt>)
    requires WellFormed(c) && Accepted(c, rs)
    ensures Head(rs) == "" <==> rs == []
  {
    if rs != [] {
      AcceptedPrevHasNoBar(c, rs, |rs| - 1);
    }
  }

  /** Everything of a receipt but the four free-text fields and the verdict. */
  predicate SameFrame(r: Receipt, s: Receipt) {
    r.seqNo == s.seqNo && r.prev == s.prev && r.ts == s.ts && r.hash == s.hash
  }

  lemma LastReceiptsAgree(c: Codec, a: seq<Receipt>, b: seq<Receipt>)
    requires WellFormed(c) && Accepted(c, a) && Accepted(c, b)
    requires a != [] && b != []
    requires Head(a) == Head(b) && !Collision(c, a, b)
    ensures SameFrame(a[|a| - 1], b[|b| - 1])
    ensures a[|a| - 1] == b[|b| - 1] <==> SameBars(a[|a| - 1], b[|b| - 1])
    ensures Head(a[..|a| - 1]) == Head(b[..|b| - 1])
  {
    var m, n := |a| - 1, |b| - 1;
    AcceptedPrevHasNoBar(c, a, m);
    AcceptedPrevHasNoBar(c, b, n);
    assert HashOk(c, a[m]) && HashOk(c, b[n]);
    assert !Collide(c, a[m], b[n]);
    PayloadDetermines(c, a[m], b[n]);
  }

  lemma SameFrontAndLast<T>(a: seq<T>, b: seq<T>)
    requires a != [] && b != []
    ensures a == b <==> a[..|a| - 1] == b[..|b| - 1] && a[|a| - 1] == b[|b| - 1]
  {
    assert a == a[..|a| - 1] + [a[|a| - 1]] && b == b[..|b| - 1] + [b[|b| - 1]];
  }

  predicate SameFrames(a: seq<Receipt>, b: seq<Receipt>) {
    |a| == |b| && forall i :: 0 <= i < |a| ==> SameFrame(a[i], b[i])
  }

  predicate AllSameBars(a: seq<Receipt>, b: seq<Receipt>)
    requires |a| == |b|
  {
    forall i :: 0 <= i < |a| ==> SameBars(a[i], b[i])
  }

  lemma SnocFrames(a: seq<Receipt>, b: seq<Receipt>)
    requires a != [] && b != []
    ensures SameFrames(a, b) <==> SameFrames(a[..|a| - 1], b[..|b| - 1]) && SameFrame(a[|a| - 1], b[|b| - 1])
    ensures |a| == |b| ==>
            (AllSameBars(a, b) <==> AllSameBars(a[..|a| - 1], b[..|b| - 1]) && SameBars(a[|a| - 1], b[|b| - 1]))
  {
    hide SameFrame, SameBars;
    var m, n := |a| - 1, |b| - 1;
    assert forall i :: 0 <= i < m ==> a[..m][i] == a[i];
    assert forall i :: 0 <= i < n ==> b[..n][i] == b[i];
    if SameFrames(a, b) {
      forall i | 0 <= i < m
        ensures SameFrame(a[..m][i], b[..n][i])
      {
        assert SameFrame(a[i], b[i]);
      }
    }
    if m == n && AllSameBars(a, b) {
      forall i | 0 <= i < m
        ensures SameBars(a[..m][i], b[..n][i])
      {
        assert SameBars(a[i], b[i]);
      }
    }
  }

  /** Two accepted ledgers with the same last hash, unless they exhibit a hash collision, have the same
      length and the same number, link, instant and hash at every position, whatever their fields hold;
      and they are the same ledger exactly when their fields hold equally many delimiters, receipt by
      receipt. */
  lemma {:induction false} HeadCommitsIff(c: Codec, a: seq<Receipt>, b: seq<Receipt>)
    requires WellFormed(c) && Accepted(c, a) && Accepted(c, b)
    requires Head(a) == Head(b) && !Collision(c, a, b)
    ensures SameFrames(a, b)
    ensures a == b <==> AllSameBars(a, b)
    decreases |a|
  {
    hide *;
    EmptyHead(c, a);
    EmptyHead(c, b);
    if a != [] && b != [] {
      var m, n := |a| - 1, |b| - 1;
      LastReceiptsAgree(c, a, b);
      AcceptedPrefix(c, a, m);
      AcceptedPrefix(c, b, n);
      if Collision(c, a[..m], b[..n]) {
        CollisionGrows(c, a, b, m, n);
      }
      HeadCommitsIff(c, a[..m], b[..n]);
      SnocFrames(a, b);
      SameLengths(a, b);
      SameFrontAndLast(a, b);
    } else {
      NoReceipts(a, b);
    }
  }

  lemma SameLengths(a: seq<Receipt>, b: seq<Receipt>)
    ensures SameFrames(a, b) ==> |a| == |b|
  {
  }

  lemma NoReceipts(a: seq<Receipt>, b: seq<Receipt>)
    requires a == [] && b == []
    ensures SameFrames(a, b) && AllSameBars(a, b)
  {
  }

  lemma DelimitedAllSameBars(a: seq<Receipt>, b: seq<Receipt>)
    requires AllDelimited(a) && AllDelimited(b) && |a| == |b|
    ensures AllSameBars(a, b)
  {
    hide SameBars, Delimited;
    forall i | 0 <= i < |a|
      ensures SameBars(a[i], b[i])
    {
      DelimitedSameBars(a[i], b[i]);
    }
  }

  /** So two accepted ledgers with delimiter-free fields and the same last hash are the same ledger, or
      they exhibit a hash collision. */
  lemma HeadCommits(c: Codec, a: seq<Receipt>, b: seq<Receipt>)
    requires WellFormed(c) && Accepted(c, a) && Accepted(c, b)
    requires AllDelimited(a) && AllDelimited(b)
    requires Head(a) == Head(b)
    ensures a == b || Collision(c, a, b)
  {
    hide *;
    if !Collision(c, a, b) {
      HeadCommitsIff(c, a, b);
      SameLengths(a, b);
      DelimitedAllSameBars(a, b);
    }
  }

  /** Without the delimiter condition the claim fails under every hash: moving a `|` across the
      subject/space boundary leaves payload and hash unchanged. */
  lemma BarsBreakCommitment(c: Codec, now: int) returns (a: seq<Receipt>, b: seq<Receipt>)
    ensures Ledger(c, a) && Ledger(c, b) && Head(a) == Head(b) && a != b
    ensures !Collision(c, a, b)
    ensures |a| == |b| == 1 && a[0].subject == "agent|x" && b[0].subject == "agent"
  {
    var r := Stamped(c, [], "agent|x", "demo", OP_READ, "f", "allow", now);
    var s := Stamped(c, [], "agent", "x|demo", OP_READ, "f", "allow", now);
    a, b := [r], [s];
    var rest := OP_READ + [BAR] + ("f" + [BAR] + "allow");
    assert Body(r) == Body(s) by {
      assert "agent|x" + [BAR] + ("demo" + [BAR] + rest) == "agent" + [BAR] + ("x|demo" + [BAR] + rest);
    }
    assert LinkOk(a, 0) && LinkOk(b, 0);
    assert r.subject != s.subject by {
      assert |r.subject| != |s.subject|;
    }
  }

  // ---------- tamper localisation ----------

  /** Editing receipt `i` and leaving its hash goes unnoticed exactly when the edit keeps the link and
      the joined payload, which for equal delimiter counts means that nothing was edited; and what is
      noticed is noticed at exactly `i`. */
  lemma EditUnnoticedIff(c: Codec, a: seq<Receipt>, i: nat, r: Receipt)
    requires WellFormed(c) && Accepted(c, a) && i < |a|
    requires r.hash == a[i].hash && !Collide(c, r, a[i])
    ensures Accepted(c, a[i := r]) <==> r.prev == a[i].prev && Payload(c, r) == Payload(c, a[i])
    ensures SameBars(r, a[i]) ==> (Accepted(c, a[i := r]) <==> r == a[i])
    ensures !Accepted(c, a[i := r]) ==> FailsAt(c, a[i := r], if r.prev != a[i].prev then ChainBroken(i) else Tampered(i))
  {
    hide Payload, SameBars;
    EditKeepsPrefix(c, a, i, r);
    AcceptedPrevHasNoBar(c, a, i);
    assert LinkOk(a, i) && HashOk(c, a[i]);
    if r.prev == a[i].prev && Payload(c, r) == Payload(c, a[i]) {
      PayloadDetermines(c, r, a[i]);
      EditKeepsRest(c, a, i, r);
    } else {
      assert !(LinkOk(a[i := r], i) && HashOk(c, a[i := r][i]));
    }
  }

  lemma EditKeepsRest(c: Codec, a: seq<Receipt>, i: nat, r: Receipt)
    requires Accepted(c, a) && i < |a| && r.hash == a[i].hash && r.prev == a[i].prev && HashOk(c, r)
    ensures Accepted(c, a[i := r])
  {
    hide HashOk;
    var t := a[i := r];
    forall j | 0 <= j < |t|
      ensures LinkOk(t, j) && HashOk(c, t[j])
    {
      assert LinkOk(a, j) && HashOk(c, a[j]);
    }
  }

  /** So an edit that keeps the delimiter counts - of bar-free fields to bar-free fields, say - fails at
      exactly the edited receipt. */
  lemma EditFailsAtItself(c: Codec, a: seq<Receipt>, i: nat, r: Receipt)
    requires WellFormed(c) && Accepted(c, a) && i < |a|
    requires r.hash == a[i].hash && r != a[i]
    requires SameBars(r, a[i]) && !Collide(c, r, a[i])
    ensures FailsAt(c, a[i := r], if r.prev != a[i].prev then ChainBroken(i) else Tampered(i))
  {
    hide *;
    EditUnnoticedIff(c, a, i, r);
  }

  lemma EditKeepsPrefix(c: Codec, a: seq<Receipt>, i: nat, r: Receipt)
    requires Accepted(c, a) && i < |a|
    ensures var t := a[i := r];
            && (forall j :: 0 <= j < i ==> LinkOk(t, j) && HashOk(c, t[j]))
            && (LinkOk(t, i) <==> r.prev == a[i].prev)
  {
    hide HashOk;
    var t := a[i := r];
    assert LinkOk(a, i);
    forall j | 0 <= j < i
      ensures LinkOk(t, j) && HashOk(c, t[j])
    {
      assert LinkOk(a, j) && HashOk(c, a[j]);
    }
  }

  lemma RehashDiffers(c: Codec, a: seq<Receipt>, i: nat, r: Receipt)
    requires WellFormed(c) && Accepted(c, a) && i < |a|
    requires r.prev == a[i].prev && HashOk(c, r) && !SameFields(r, a[i])
    requires SameBars(r, a[i]) && !Collide(c, r, a[i])
    ensures r.hash != a[i].hash
  {
    AcceptedPrevHasNoBar(c, a, i);
    assert HashOk(c, a[i]);
    if Payload(c, r) == Payload(c, a[i]) {
      PayloadDetermines(c, r, a[i]);
    }
  }

  /** Editing receipt `i` and recomputing only its hash fails at exactly `i` if the edit touches its
      link and at exactly `i + 1` otherwise; on the last receipt the latter goes unnoticed, which is why
      the head must be kept elsewhere. */
  lemma RehashFailsAtNext(c: Codec, a: seq<Receipt>, i: nat, r: Receipt)
    requires WellFormed(c) && Accepted(c, a) && i < |a|
    requires HashOk(c, r) && !SameFields(r, a[i])
    requires SameBars(r, a[i]) && !Collide(c, r, a[i])
    ensures r.prev != a[i].prev ==> FailsAt(c, a[i := r], ChainBroken(i))
    ensures r.prev == a[i].prev && i + 1 < |a| ==> FailsAt(c, a[i := r], ChainBroken(i + 1))
    ensures r.prev == a[i].prev && i + 1 == |a| ==> Accepted(c, a[i := r]) && Head(a[i := r]) != Head(a)
  {
    hide HashOk, Payload;
    if r.prev != a[i].prev {
      EditKeepsPrefix(c, a, i, r);
    } else {
      RehashDiffers(c, a, i, r);
      if i + 1 < |a| {
        RehashedInside(c, a, i, r);
      } else {
        RehashedLast(c, a, i, r);
      }
    }
  }

  lemma RehashedInside(c: Codec, a: seq<Receipt>, i: nat, r: Receipt)
    requires Accepted(c, a) && i + 1 < |a|
    requires r.prev == a[i].prev && HashOk(c, r) && r.hash != a[i].hash
    ensures FailsAt(c, a[i := r], ChainBroken(i + 1))
  {
    hide HashOk;
    var t := a[i := r];
    EditKeepsPrefix(c, a, i, r);
    assert LinkOk(a, i) && LinkOk(a, i + 1);
    assert LinkOk(t, i) && HashOk(c, t[i]);
    assert !LinkOk(t, i + 1);
  }

  lemma RehashedLast(c: Codec, a: seq<Receipt>, i: nat, r: Receipt)
    requires Accepted(c, a) && i + 1 == |a|
    requires r.prev == a[i].prev && HashOk(c, r)
    ensures Accepted(c, a[i := r]) && Head(a[i := r]) == r.hash
  {
    hide HashOk;
    var t := a[i := r];
    EditKeepsPrefix(c, a, i, r);
    assert LinkOk(a, i);
    assert LinkOk(t, i) && HashOk(c, t[i]);
  }
}
