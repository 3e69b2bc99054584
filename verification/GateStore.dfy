/** The egress gate's tables: replay protection and active grants. */
module GateStore {
  import opened Sorting
  import opened Text

  type Key = (string, string)

  datatype Row = Row(tokenId: string, nonce: string, exp: int, proto: string,
                     targets: seq<string>, ports: seq<int>, installedAt: int)

  function KeyOf(r: Row): Key { (r.tokenId, r.nonce) }

  datatype Seen = Seen(exp: int, seenAt: int)

  datatype Tables = Tables(replay: map<Key, Seen>, grants: seq<Row>)

  /** The clock, read anew for the expiry check, each insert and the returned grant. */
  datatype Clock = Clock(checkedAt: int, seenAt: int, storedAt: int, returnedAt: int)

  datatype Request = Request(tokenId: string, nonce: string, exp: int, targets: seq<string>, ports: seq<int>, proto: string)

  datatype Outcome = Installed(grant: Row) | Expired | Replayed | Conflict

  datatype Install = Install(tables: Tables, outcome: Outcome)

  function LowerChar(c: char): char {
    if 'A' <= c <= 'Z' then ((c as int) + 32) as char else c
  }

  function Lower(s: string): (r: string)
    ensures |r| == |s|
  {
    if s == "" then "" else [LowerChar(s[0])] + Lower(s[1..])
  }

  /** `(proto or "tcp").lower()`, anything but "udp" becoming "tcp". */
  function ProtoOf(proto: string): (p: string)
    ensures p == "tcp" || p == "udp"
  {
    if Lower(proto) == "udp" then "udp" else "tcp"
  }

  function RowOf(q: Request, at: int): Row {
    Row(q.tokenId, q.nonce, q.exp, ProtoOf(q.proto), q.targets, q.ports, at)
  }

  predicate HasKey(grants: seq<Row>, k: Key) { exists i :: 0 <= i < |grants| && KeyOf(grants[i]) == k }

  /** One transaction: the replay row and the grant row together, or neither. */
  function InstallStep(s: Tables, q: Request, c: Clock): Install {
    var k := (q.tokenId, q.nonce);
    if q.exp <= c.checkedAt then Install(s, Expired)
    else if k in s.replay then Install(s, Replayed)
    else if HasKey(s.grants, k) then Install(s, Conflict)
    else Install(Tables(s.replay[k := Seen(q.exp, c.seenAt)], s.grants + [RowOf(q, c.storedAt)]), Installed(RowOf(q, c.returnedAt)))
  }

  /** The grants not yet expired at `now`. */
  function Live(grants: seq<Row>, now: int): (r: seq<Row>)
    ensures |r| <= |grants|
  {
    if grants == [] then []
    else
      var last := grants[|grants| - 1];
      if last.exp > now then Live(grants[..|grants| - 1], now) + [last] else Live(grants[..|grants| - 1], now)
  }

  function PruneStep(s: Tables, now: int): Tables { s.(grants := Live(s.grants, now)) }

  predicate EarlierInstalled(a: Row, b: Row) { a.installedAt < b.installedAt }

  /** The live grants, oldest installation first; ties in table order. */
  function Active(s: Tables, now: int): seq<Row> { StableSort(Live(s.grants, now), EarlierInstalled) }

  datatype Sets = Sets(addrs: set<string>, tcp: set<string>, udp: set<string>)

  function Addrs(gs: seq<Row>): set<string> {
    set g, t | g in gs && t in g.targets :: DropSlash32(t)
  }

  function Ports(gs: seq<Row>, udp: bool): set<string> {
    set g, p | g in gs && (g.proto == "udp") == udp && p in g.ports :: Decimal(p)
  }

  /** What the gate should currently let through: every address and port of every live grant. */
  function ActiveSets(s: Tables, now: int): Sets {
    var live := Live(s.grants, now);
    Sets(Addrs(live), Ports(live, false), Ports(live, true))
  }

  lemma {:induction false} LiveMembers(grants: seq<Row>, now: int)
    ensures forall g :: g in Live(grants, now) <==> g in grants && g.exp > now
  {
    if grants != [] {
      var n := |grants| - 1;
      LiveMembers(grants[..n], now);
      assert grants == grants[..n] + [grants[n]];
    }
  }

  lemma SetsDependOnMembers(a: seq<Row>, b: seq<Row>)
    requires forall g :: g in a <==> g in b
    ensures Addrs(a) == Addrs(b) && forall udp :: Ports(a, udp) == Ports(b, udp)
  {
  }

  lemma NoRows()
    ensures Addrs([]) == {} && forall udp :: Ports([], udp) == {}
  {
  }

  /** Python's loops over one grant. */
  method AddAll(into: set<string>, texts: seq<string>) returns (r: set<string>)
    ensures r == into + set t | t in texts
  {
    r := into;
    for i := 0 to |texts|
      invariant r == into + set t | t in texts[..i]
    {
      assert texts[..i + 1] == texts[..i] + [texts[i]];
      r := r + {texts[i]};
    }
    assert texts[..|texts|] == texts;
  }

  function Stripped32(targets: seq<string>): (r: seq<string>)
    ensures |r| == |targets| && forall i :: 0 <= i < |r| ==> r[i] == DropSlash32(targets[i])
  {
    seq(|targets|, i requires 0 <= i < |targets| => DropSlash32(targets[i]))
  }

  function Decimals(ports: seq<int>): (r: seq<string>)
    ensures |r| == |ports| && forall i :: 0 <= i < |r| ==> r[i] == Decimal(ports[i])
  {
    seq(|ports|, i requires 0 <= i < |ports| => Decimal(ports[i]))
  }

  lemma SetsGrow(gs: seq<Row>, g: Row)
    ensures Addrs(gs + [g]) == Addrs(gs) + set t | t in Stripped32(g.targets)
    ensures forall udp :: Ports(gs + [g], udp)
                          == Ports(gs, udp) + if (g.proto == "udp") == udp then set p | p in Decimals(g.ports) else {}
  {
    AddrsGrow(gs, g);
    forall udp
      ensures Ports(gs + [g], udp) == Ports(gs, udp) + if (g.proto == "udp") == udp then set p | p in Decimals(g.ports) else {}
    {
      PortsGrow(gs, g, udp);
    }
  }

  lemma AddrsGrow(gs: seq<Row>, g: Row)
    ensures Addrs(gs + [g]) == Addrs(gs) + set t | t in Stripped32(g.targets)
  {
    var more := set t | t in Stripped32(g.targets);
    forall a | a in Addrs(gs + [g])
      ensures a in Addrs(gs) + more
    {
      var h, t :| h in gs + [g] && t in h.targets && a == DropSlash32(t);
      if h !in gs {
        var i :| 0 <= i < |g.targets| && g.targets[i] == t;
        assert Stripped32(g.targets)[i] == a;
      }
    }
    forall a | a in more
      ensures a in Addrs(gs + [g])
    {
      var i :| 0 <= i < |g.targets| && Stripped32(g.targets)[i] == a;
      assert g in gs + [g] && g.targets[i] in g.targets && a == DropSlash32(g.targets[i]);
    }
    forall a | a in Addrs(gs)
      ensures a in Addrs(gs + [g])
    {
      var h, t :| h in gs && t in h.targets && a == DropSlash32(t);
      assert h in gs + [g];
    }
  }

  lemma PortsGrow(gs: seq<Row>, g: Row, udp: bool)
    ensures Ports(gs + [g], udp) == Ports(gs, udp) + if (g.proto == "udp") == udp then set p | p in Decimals(g.ports) else {}
  {
    var more := if (g.proto == "udp") == udp then set p | p in Decimals(g.ports) else {};
    forall a | a in Ports(gs + [g], udp)
      ensures a in Ports(gs, udp) + more
    {
      var h, p :| h in gs + [g] && (h.proto == "udp") == udp && p in h.ports && a == Decimal(p);
      if h !in gs {
        var i :| 0 <= i < |g.ports| && g.ports[i] == p;
        assert Decimals(g.ports)[i] == a;
      }
    }
    forall a | a in more
      ensures a in Ports(gs + [g], udp)
    {
      var i :| 0 <= i < |g.ports| && Decimals(g.ports)[i] == a;
      assert g in gs + [g] && g.ports[i] in g.ports && a == Decimal(g.ports[i]);
    }
    forall a | a in Ports(gs, udp)
      ensures a in Ports(gs + [g], udp)
    {
      var h, p :| h in gs && (h.proto == "udp") == udp && p in h.ports && a == Decimal(p);
      assert h in gs + [g];
    }
  }

  class Store {
    var replay: map<Key, Seen>
    var grants: seq<Row>

    constructor ()
      ensures Contents() == Tables(map[], [])
    {
      replay, grants := map[], [];
    }

    function Contents(): Tables
      reads this
    {
      Tables(replay, grants)
    }

    method RecordReplay(q: Request, seenAt: int) returns (ok: bool)
      modifies `replay
      ensures ok == ((q.tokenId, q.nonce) !in old(replay))
      ensures replay == if ok then old(replay)[(q.tokenId, q.nonce) := Seen(q.exp, seenAt)] else old(replay)
    {
      if (q.tokenId, q.nonce) in replay {
        return false;
      }
      replay := replay[(q.tokenId, q.nonce) := Seen(q.exp, seenAt)];
      return true;
    }

    method InstallGrant(q: Request, c: Clock) returns (outcome: Outcome)
      modifies this
      ensures Install(Contents(), outcome) == InstallStep(old(Contents()), q, c)
    {
      if q.exp <= c.checkedAt {
        return Expired;
      }
      var p := Lower(q.proto);
      if p != "tcp" && p != "udp" {
        p := "tcp";
      }
      var before := replay;
      var recorded := RecordReplay(q, c.seenAt);
      if !recorded {
        return Replayed;
      }
      if HasKey(grants, (q.tokenId, q.nonce)) {
        replay := before;
        return Conflict;
      }
      grants := grants + [Row(q.tokenId, q.nonce, q.exp, p, q.targets, q.ports, c.storedAt)];
      return Installed(Row(q.tokenId, q.nonce, q.exp, p, q.targets, q.ports, c.returnedAt));
    }

    /** Deletes what has expired and reports how many. */
    method PruneExpired(now: int) returns (removed: nat)
      modifies `grants
      ensures Contents() == PruneStep(old(Contents()), now)
      ensures |grants| + removed == |old(grants)|
    {
      var keep := SelectLive(now);
      removed := |grants| - |keep|;
      grants := keep;
    }

    method SelectLive(now: int) returns (rows: seq<Row>)
      ensures rows == Live(grants, now)
    {
      rows := [];
      for i := 0 to |grants|
        invariant rows == Live(grants[..i], now)
      {
        assert grants[..i + 1][..i] == grants[..i];
        if grants[i].exp > now {
          rows := rows + [grants[i]];
        }
      }
      assert grants[..|grants|] == grants;
    }

    method ListActive(now: int) returns (out: seq<Row>)
      ensures out == Active(Contents(), now)
    {
      var rows := SelectLive(now);
      var a := new Row[|rows|](i requires 0 <= i < |rows| => rows[i]);
      assert a[..] == rows;
      SortInPlace(a, EarlierInstalled);
      out := a[..];
    }

    method ComputeActiveSets(now: int) returns (s: Sets)
      ensures s == ActiveSets(Contents(), now)
    {
      hide Addrs, Ports, Live, StableSort, Decimals, Stripped32;
      NoRows();
      var active := ListActive(now);
      var addrs: set<string>, tcp: set<string>, udp: set<string> := {}, {}, {};
      for i := 0 to |active|
        invariant addrs == Addrs(active[..i]) && tcp == Ports(active[..i], false) && udp == Ports(active[..i], true)
      {
        var g := active[i];
        SetsGrow(active[..i], g);
        assert active[..i + 1] == active[..i] + [g];
        addrs := AddAll(addrs, Stripped32(g.targets));
        if g.proto == "udp" {
          udp := AddAll(udp, Decimals(g.ports));
        } else {
          tcp := AddAll(tcp, Decimals(g.ports));
        }
      }
      assert active[..|active|] == active;
      SortPermutes(Live(grants, now), EarlierInstalled);
      SetsDependOnMembers(active, Live(grants, now));
      s := Sets(addrs, tcp, udp);
    }
  }

  // ---------- pruning is invisible ----------

  lemma {:induction false} LiveOfLive(grants: seq<Row>, t: int, u: int)
    requires forall g :: g in grants ==> !(u < g.exp <= t)
    ensures Live(Live(grants, t), u) == Live(grants, u)
  {
    if grants != [] {
      hide Live;
      var n := |grants| - 1;
      var front, last := grants[..n], grants[n];
      assert grants == front + [last];
      assert forall g :: g in front ==> g in grants;
      assert last in grants;
      LiveOfLive(front, t, u);
      LiveSnoc(front, last, t);
      LiveSnoc(front, last, u);
      LiveSnoc(Live(front, t), last, u);
    }
  }

  /** A prune at `t` changes what a later look at `u` lists exactly when some grant expires in between
      the wrong way round, after `u` and not after `t`. */
  lemma PruneInvisibleIff(s: Tables, t: int, u: int)
    ensures Active(PruneStep(s, t), u) == Active(s, u) <==> forall g :: g in s.grants ==> !(u < g.exp <= t)
  {
    if forall g :: g in s.grants ==> !(u < g.exp <= t) {
      LiveOfLive(s.grants, t, u);
    } else {
      var g :| g in s.grants && u < g.exp <= t;
      LiveMembers(s.grants, u);
      LiveMembers(s.grants, t);
      LiveMembers(Live(s.grants, t), u);
      SortPermutes(Live(s.grants, u), EarlierInstalled);
      SortPermutes(Live(Live(s.grants, t), u), EarlierInstalled);
      assert g in Active(s, u) && g !in Active(PruneStep(s, t), u);
    }
  }

  /** With a clock that does not go back, pruning is invisible to every later listing and set. */
  lemma PruneInvisible(s: Tables, t: int, u: int)
    requires t <= u
    ensures Active(PruneStep(s, t), u) == Active(s, u) && ActiveSets(PruneStep(s, t), u) == ActiveSets(s, u)
  {
    LiveOfLive(s.grants, t, u);
  }

  /** The active sets are the least that cover every live grant. */
  lemma ActiveSetsLeast(s: Tables, now: int, cover: Sets)
    ensures var a := ActiveSets(s, now);
            a.addrs <= cover.addrs && a.tcp <= cover.tcp && a.udp <= cover.udp <==>
            forall g :: g in s.grants && g.exp > now ==>
              && (forall t :: t in g.targets ==> DropSlash32(t) in cover.addrs)
              && (forall p :: p in g.ports ==> Decimal(p) in if g.proto == "udp" then cover.udp else cover.tcp)
  {
    LiveMembers(s.grants, now);
    var live, a := Live(s.grants, now), ActiveSets(s, now);
    if a.addrs <= cover.addrs && a.tcp <= cover.tcp && a.udp <= cover.udp {
      forall g, t | g in s.grants && g.exp > now && t in g.targets
        ensures DropSlash32(t) in cover.addrs
      {
        assert g in live && DropSlash32(t) in a.addrs;
      }
      forall g, p | g in s.grants && g.exp > now && p in g.ports
        ensures Decimal(p) in if g.proto == "udp" then cover.udp else cover.tcp
      {
        assert g in live && Decimal(p) in Ports(live, g.proto == "udp");
      }
    }
  }

  /** What one request asks to let through. */
  function Asked(q: Request): Sets {
    var addrs, ports := set t | t in q.targets :: DropSlash32(t), set p | p in q.ports :: Decimal(p);
    if Lower(q.proto) == "udp" then Sets(addrs, {}, ports) else Sets(addrs, ports, {})
  }

  function Joined(a: Sets, b: Sets): Sets { Sets(a.addrs + b.addrs, a.tcp + b.tcp, a.udp + b.udp) }

  lemma RowAsked(q: Request, at: int)
    ensures Joined(Sets({}, {}, {}), Asked(q))
         == Sets(Addrs([RowOf(q, at)]), Ports([RowOf(q, at)], false), Ports([RowOf(q, at)], true))
  {
    var r := RowOf(q, at);
    assert r in [r] && forall g :: g in [r] ==> g == r;
    assert "tcp" != "udp" by { assert "tcp"[0] != "udp"[0]; }
    forall t | t in q.targets
      ensures DropSlash32(t) in Addrs([r])
    {
      assert t in r.targets;
    }
    forall p | p in q.ports
      ensures Decimal(p) in Ports([r], r.proto == "udp")
    {
      assert p in r.ports;
    }
  }

  lemma SetsOfOneMore(gs: seq<Row>, g: Row)
    ensures Addrs(gs + [g]) == Addrs(gs) + Addrs([g])
    ensures forall udp :: Ports(gs + [g], udp) == Ports(gs, udp) + Ports([g], udp)
  {
    hide Stripped32, Decimals;
    SetsGrow(gs, g);
    SetsGrow([], g);
    NoRows();
    assert [] + [g] == [g];
  }

  /** An accepted installation opens exactly what it asks for, on top of what was open, until it
      expires; after that it makes no difference. A refused one never does. */
  lemma InstallOpens(s: Tables, q: Request, c: Clock, t: int)
    ensures var r := InstallStep(s, q, c);
            ActiveSets(r.tables, t)
            == if r.outcome.Installed? && q.exp > t then Joined(ActiveSets(s, t), Asked(q)) else ActiveSets(s, t)
  {
    hide Addrs, Ports, Asked, Live;
    var r := InstallStep(s, q, c);
    if r.outcome.Installed? {
      var row := RowOf(q, c.storedAt);
      LiveSnoc(s.grants, row, t);
      SetsOfOneMore(Live(s.grants, t), row);
      RowAsked(q, c.storedAt);
    }
  }

  lemma LiveSnoc(rows: seq<Row>, r: Row, t: int)
    ensures Live(rows + [r], t) == if r.exp > t then Live(rows, t) + [r] else Live(rows, t)
  {
    assert (rows + [r])[..|rows|] == rows;
  }

  // ---------- what the tables hold ----------

  predicate SameLetter(a: char, b: char) { a == b || ('A' <= a <= 'Z' && b == a - 'A' + 'a') || ('A' <= b <= 'Z' && a == b - 'A' + 'a') }

  /** The same text but for the case of letters. */
  predicate SameLetters(a: string, b: string) { |a| == |b| && forall i :: 0 <= i < |a| ==> SameLetter(a[i], b[i]) }

  lemma {:induction false} LowerAt(s: string, i: nat)
    requires i < |s|
    ensures Lower(s)[i] == if 'A' <= s[i] <= 'Z' then s[i] - 'A' + 'a' else s[i]
  {
    if i > 0 {
      LowerAt(s[1..], i - 1);
    }
  }

  /** "udp" in any casing is udp, and everything else, the empty text included, is tcp. */
  lemma ProtoIff(proto: string)
    ensures ProtoOf(proto) == "udp" <==> SameLetters(proto, "udp")
    ensures ProtoOf(proto) == "tcp" <==> !SameLetters(proto, "udp")
  {
    assert "tcp" != "udp" by { assert "tcp"[0] != "udp"[0]; }
    forall i | 0 <= i < |proto|
      ensures Lower(proto)[i] == if 'A' <= proto[i] <= 'Z' then proto[i] - 'A' + 'a' else proto[i]
    {
      LowerAt(proto, i);
    }
    var u := "udp";
    assert u[0] == 'u' && u[1] == 'd' && u[2] == 'p';
    if SameLetters(proto, u) {
      assert Lower(proto) == u;
    }
    if Lower(proto) == u {
      forall i | 0 <= i < |proto|
        ensures SameLetter(proto[i], u[i])
      {
        assert Lower(proto)[i] == u[i];
      }
    }
  }

  /** Expiry is looked at first, then whether the pair is known; accepted, the pair is remembered with its
      expiry and the grant is kept as asked, under its protocol and the instants read; refused, nothing
      changes. */
  lemma InstallSays(s: Tables, q: Request, c: Clock)
    ensures var r, k := InstallStep(s, q, c), (q.tokenId, q.nonce);
            && (r.outcome == Expired <==> q.exp <= c.checkedAt)
            && (r.outcome == Replayed <==> q.exp > c.checkedAt && k in s.replay)
            && (r.outcome == Conflict <==>
                q.exp > c.checkedAt && k !in s.replay && exists g :: g in s.grants && g.tokenId == q.tokenId && g.nonce == q.nonce)
            && (!r.outcome.Installed? ==> r.tables == s)
            && (r.outcome.Installed? ==>
                && r.tables.replay == s.replay[k := Seen(q.exp, c.seenAt)]
                && |r.tables.grants| == |s.grants| + 1 && r.tables.grants[..|s.grants|] == s.grants
                && var g := r.tables.grants[|s.grants|];
                   && g.tokenId == q.tokenId && g.nonce == q.nonce && g.exp == q.exp && g.targets == q.targets
                   && g.ports == q.ports && (g.proto == "udp" <==> SameLetters(q.proto, "udp"))
                   && (g.proto == "tcp" <==> !SameLetters(q.proto, "udp"))
                   && g.installedAt == c.storedAt && r.outcome.grant == g.(installedAt := c.returnedAt))
  {
    hide SameLetters, ProtoOf;
    ProtoIff(q.proto);
    if g :| g in s.grants && g.tokenId == q.tokenId && g.nonce == q.nonce {
      var i :| 0 <= i < |s.grants| && s.grants[i] == g;
      assert KeyOf(s.grants[i]) == (q.tokenId, q.nonce);
    }
  }

  /** The listing holds exactly the unexpired grants, each as often as the table does, and their
      installation times never decrease along it. */
  lemma ActiveInOrder(s: Tables, now: int)
    ensures var a := Active(s, now);
            && (forall g :: g in a <==> g in s.grants && now < g.exp)
            && multiset(a) == multiset(Live(s.grants, now))
            && (forall i, j :: 0 <= i < j < |a| ==> a[i].installedAt <= a[j].installedAt)
  {
    var live, a := Live(s.grants, now), Active(s, now);
    LiveMembers(s.grants, now);
    SortPermutes(live, EarlierInstalled);
    EarlierIsOrder();
    SortOrdered(live, EarlierInstalled);
    forall g
      ensures g in a <==> g in live
    {
      assert g in a <==> g in multiset(a);
    }
    forall i, j | 0 <= i < j < |a|
      ensures a[i].installedAt <= a[j].installedAt
    {
      assert !EarlierInstalled(a[j], a[i]);
    }
  }

  lemma EarlierIsOrder()
    ensures StrictWeakOrder(EarlierInstalled)
  {
  }

  /** Grants that have expired by `now`. */
  function ExpiredCount(grants: seq<Row>, now: int): nat {
    if grants == [] then 0 else ExpiredCount(grants[..|grants| - 1], now) + if grants[|grants| - 1].exp <= now then 1 else 0
  }

  lemma {:induction false} LiveAndExpired(grants: seq<Row>, now: int)
    ensures |Live(grants, now)| + ExpiredCount(grants, now) == |grants|
  {
    if grants != [] {
      LiveAndExpired(grants[..|grants| - 1], now);
    }
  }
}
