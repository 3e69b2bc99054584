/** What each governed call needs, does and answers, call by call. */
module MountCalls {
  import opened Codecs
  import opened Governance
  import opened Mount
  import opened Options
  import opened Retention
  import opened Snapshots
  import Text
  import opened Trees

  // ---------- who may call what ----------

  /** Any of the flags for write-only, read-write, create, truncate and append. */
  predicate WritesByFlags(flags: bv32) {
    flags & 0x1 != 0 || flags & 0x2 != 0 || flags & 0x40 != 0 || flags & 0x200 != 0 || flags & 0x400 != 0
  }

  predicate WritesCall(call: Call) {
    call.Create? || call.Rename? || call.Remove? || (call.OpenFile? && WritesByFlags(call.flags))
  }

  /** A lease is presented for this space and has not expired when it is checked. */
  predicate Live(lease: Option<Lease>, space: string, now: int) {
    lease.Some? && lease.value.space == space && (lease.value.expiry == None || now <= lease.value.expiry.value)
  }

  lemma MutatingIff(flags: bv32)
    ensures flags & MUTATING != 0 <==> WritesByFlags(flags)
  {
  }

  lemma OpReads(call: Call)
    ensures OpOf(call) == if WritesCall(call) then "write" else if call.ReadDir? || call.Chroot? then "list"
                          else if call.Stat? || call.Lstat? then "stat" else "read"
    ensures IsWrite(OpOf(call)) <==> WritesCall(call)
  {
    hide WritesByFlags;
    if call.OpenFile? {
      MutatingIff(call.flags);
    }
    assert "read" != "write" && "list" != "write" && "stat" != "write" by {
      assert |"read"| == 4 && |"list"| == 4 && |"stat"| == 4 && |"write"| == 5;
    }
    assert "commit" != "read" && "commit" != "list" && "commit" != "stat" by {
      assert |"commit"| == 6 && |"read"| == 4 && |"list"| == 4 && |"stat"| == 4;
    }
  }

  /** Create, Rename, Remove and an OpenFile with a mutating flag pass exactly under a live lease that
      grants writing, everything else exactly under one that grants reading; the refusal names the first
      reason, and the receipt names the class of access. */
  lemma CallNeeds(c: Codec, space: string, lease: Option<Lease>, base: string, ledger: seq<Receipt>, t: Files, call: Call, at: Clock)
    ensures var g, live := Govern(c, space, lease, base, ledger, t, call, at), Live(lease, space, at.checkedAt);
            && (g.answer.Returned? <==> live && if WritesCall(call) then lease.value.canWrite else lease.value.canRead)
            && (g.answer == Denied(NoLease) <==> lease.None?)
            && (g.answer == Denied(WrongSpace) <==> lease.Some? && lease.value.space != space)
            && (g.answer == Denied(Expired) <==> lease.Some? && lease.value.space == space && !live)
            && (g.answer == Denied(LacksWrite) <==> live && WritesCall(call) && !lease.value.canWrite)
            && (g.answer == Denied(LacksRead) <==> live && !WritesCall(call) && !lease.value.canRead)
    ensures var g := Govern(c, space, lease, base, ledger, t, call, at);
            && |g.ledger| == |ledger| + 1 && g.ledger[..|ledger|] == ledger
            && g.ledger[|ledger|].op == (if WritesCall(call) then "write" else if call.ReadDir? || call.Chroot? then "list"
                                         else if call.Stat? || call.Lstat? then "stat" else "read")
  {
    hide WritesCall, Effect, DenialText, OpOf;
    OpReads(call);
  }

  /** The reason a denied call's receipt gives. */
  lemma DenialReads(c: Codec, l: Lease, space: string, op: Op, path: string)
    ensures DenialText(c, NoLease, None, space, op, path) == "denied: no lease presented for " + op + " on " + c.quote(path)
    ensures DenialText(c, WrongSpace, Some(l), space, op, path)
         == "denied: lease scoped to space " + c.quote(l.space) + ", mount is space " + c.quote(space)
    ensures l.expiry.Some? ==>
            DenialText(c, Expired, Some(l), space, op, path)
            == "denied: lease for " + c.quote(l.subject) + " expired at " + c.date(l.expiry.value)
    ensures DenialText(c, LacksWrite, Some(l), space, op, path)
         == "denied: lease lacks write capability (" + op + " on " + c.quote(path) + ")"
    ensures DenialText(c, LacksRead, Some(l), space, op, path)
         == "denied: lease lacks read capability (" + op + " on " + c.quote(path) + ")"
  {
  }

  /** The payload's fields, in order and joined by bars. */
  lemma PayloadReads(c: Codec, r: Receipt)
    ensures Payload(c, r) == Text.Numeral(r.seqNo, 10) + "|" + r.prev + "|" + c.stamp(r.ts) + "|" + r.subject + "|" + r.space
                             + "|" + r.op + "|" + r.path + "|" + r.verdict
  {
    var a, b, d := Text.Numeral(r.seqNo, 10), r.prev, c.stamp(r.ts);
    var e := r.subject + "|" + (r.space + "|" + (r.op + "|" + (r.path + "|" + r.verdict)));
    assert [BAR] == "|";
    assert Payload(c, r) == a + "|" + (b + "|" + (d + "|" + Body(r)));
    Regroup(a, b, d, r.subject, r.space, r.op, r.path, r.verdict);
  }

  lemma Regroup(a: string, b: string, d: string, e: string, f: string, g: string, h: string, i: string)
    ensures a + "|" + (b + "|" + (d + "|" + (e + "|" + (f + "|" + (g + "|" + (h + "|" + i))))))
         == a + "|" + b + "|" + d + "|" + e + "|" + f + "|" + g + "|" + h + "|" + i
  {
  }

  // ---------- what an allowed call does ----------

  /** Where a view rooted at `base` finds `path`. */
  predicate At(base: string, path: string, p: string) { p == if base == "" then path else base + "/" + path }

  /** A file is opened as it stands, emptied if asked; made with the mode asked if it is missing and that is
      asked; and refused if it is missing and that is not, or there and was to be new. */
  lemma OpenFileSays(t: Files, base: string, path: string, flags: bv32, perm: nat, p: string)
    requires At(base, path, p)
    ensures var b := Effect(t, base, OpenFile(path, flags, perm));
            var fails := if p in t then flags & 0x40 != 0 && flags & 0x80 != 0 else flags & 0x40 == 0;
            var file := if p !in t then File(perm, "") else if flags & 0x200 != 0 then File(t[p].mode, "") else t[p];
            if fails then b == Backend(t, Fails) else b.reply == Opens(file) && b.files == t[p := file]
  {
    assert p in t ==> t[p := t[p]] == t;
  }

  /** A created file is empty; it has mode 0o666 if it is new and its own otherwise. */
  lemma CreateSays(t: Files, base: string, path: string, p: string)
    requires At(base, path, p)
    ensures var b, file := Effect(t, base, Create(path)), File(if p in t then t[p].mode else 438, "");
            b.files == t[p := file] && b.reply == Opens(file)
    ensures Text.Numeral(438, 8) == "666" && Text.Numeral(READ_ONLY, 8) == "444"
  {
    var flags := O_RDWR | O_CREATE | O_TRUNC;
    assert flags & O_CREATE != 0 && flags & O_EXCL == 0 && flags & O_TRUNC != 0;
    assert Text.Numeral(54, 8) == "66" && Text.Numeral(36, 8) == "44";
  }

  /** Renaming moves one file, over whatever was there, and touches no other; removing takes one file away. */
  lemma RenameRemoveSay(t: Files, base: string, path: string, newPath: string, p: string, q: string)
    requires At(base, path, p) && At(base, newPath, q)
    ensures p !in t ==> Effect(t, base, Rename(path, newPath)) == Backend(t, Fails) == Effect(t, base, Remove(path))
    ensures p in t ==>
            var b := Effect(t, base, Rename(path, newPath));
            && b.reply == Done && b.files.Keys == t.Keys - {p} + {q} && b.files[q] == t[p]
            && forall r :: r in t && r != p && r != q ==> r in b.files && b.files[r] == t[r]
    ensures p in t ==>
            var b := Effect(t, base, Remove(path));
            && b.reply == Done && b.files.Keys == t.Keys - {p}
            && forall r :: r in t && r != p ==> r in b.files && b.files[r] == t[r]
  {
  }

  lemma {:induction false} BaseNameMeans(s: string) returns (dir: string)
    ensures s == dir + BaseName(s) && '/' !in BaseName(s) && (dir != "" ==> dir[|dir| - 1] == '/')
  {
    if s == "" || s[|s| - 1] == '/' {
      dir := s;
    } else {
      dir := BaseNameMeans(s[..|s| - 1]);
      assert s == s[..|s| - 1] + [s[|s| - 1]];
    }
  }

  lemma {:induction false} FirstPartMeans(s: string) returns (rest: string)
    ensures s == FirstPart(s) + rest && '/' !in FirstPart(s) && (rest != "" ==> rest[0] == '/')
  {
    if s == "" || s[0] == '/' {
      rest := s;
    } else {
      rest := FirstPartMeans(s[1..]);
      assert s == [s[0]] + s[1..];
    }
  }

  lemma {:induction false} FirstPartIs(a: string, rest: string)
    requires '/' !in a && (rest != "" ==> rest[0] == '/')
    ensures FirstPart(a + rest) == a
  {
    if a == "" {
      assert a + rest == rest;
    } else {
      assert (a + rest)[1..] == a[1..] + rest && a == [a[0]] + a[1..];
      FirstPartIs(a[1..], rest);
    }
  }

  lemma {:induction false} BaseNameIs(dir: string, a: string)
    requires '/' !in a && (dir != "" ==> dir[|dir| - 1] == '/')
    ensures BaseName(dir + a) == a
  {
    if a == "" {
      assert dir + a == dir;
    } else {
      assert (dir + a)[..|dir + a| - 1] == dir + a[..|a| - 1] && a == a[..|a| - 1] + [a[|a| - 1]];
      BaseNameIs(dir, a[..|a| - 1]);
    }
  }

  /** A file or a directory is there. */
  predicate Directory(t: Files, p: string) { p == "" || exists q :: q in t && p + "/" <= q }

  /** Opening answers the file. A stat answers a file's last name, mode and size, or a directory's last name;
      neither changes anything. */
  lemma ReadsSay(t: Files, base: string, path: string, p: string, dir: string, name: string)
    requires At(base, path, p)
    requires p == dir + name && '/' !in name && (dir != "" ==> dir[|dir| - 1] == '/')
    ensures Effect(t, base, Open(path)) == Backend(t, if p in t then Opens(t[p]) else Fails)
    ensures Effect(t, base, Stat(path)) == Effect(t, base, Lstat(path))
    ensures Effect(t, base, Stat(path))
         == Backend(t, if p in t then Shows(FileInfo(name, t[p].mode, |t[p].content|))
                       else if Directory(t, p) then Shows(DirInfo(name)) else Fails)
  {
    BaseNameIs(dir, name);
  }

  /** `info` tells of something directly inside the directory whose paths start with `pre`. */
  ghost predicate DirectlyInside(t: Files, pre: string, info: Info) {
    match info
    case FileInfo(name, mode, size) =>
      '/' !in name && pre + name in t && mode == t[pre + name].mode && size == |t[pre + name].content|
    case DirInfo(name) => '/' !in name && exists q :: q in t && pre + name + "/" <= q
  }

  /** Listing a directory shows exactly what is directly inside it; a file or nothing cannot be listed. */
  lemma ReadDirSays(t: Files, base: string, path: string, p: string)
    requires At(base, path, p)
    ensures var b, pre := Effect(t, base, ReadDir(path)), if p == "" then "" else p + "/";
            && b.files == t
            && (b.reply == Fails <==> p in t || !Directory(t, p))
            && (b.reply != Fails ==> b.reply.Lists? && forall info :: info in b.reply.infos <==> DirectlyInside(t, pre, info))
  {
    hide FirstPart, BaseName;
    var pre := Inside(p);
    if p !in t && Directory(t, p) {
      forall q | q in t && pre <= q
        ensures DirectlyInside(t, pre, EntryTowards(t, p, q))
      {
        EntryIsInside(t, p, q);
      }
      forall info | DirectlyInside(t, pre, info)
        ensures exists q :: q in t && pre <= q && EntryTowards(t, p, q) == info
      {
        var q := InsideHasEntry(t, p, info);
      }
    }
  }

  lemma EntryIsInside(t: Files, p: string, q: string)
    requires q in t && Inside(p) <= q
    ensures DirectlyInside(t, Inside(p), EntryTowards(t, p, q))
  {
    var pre := Inside(p);
    var rest := q[|pre|..];
    var more := FirstPartMeans(rest);
    assert q == pre + rest;
    if more == "" {
      assert FirstPart(rest) == rest;
    } else {
      assert more == "/" + more[1..];
      assert q == pre + FirstPart(rest) + "/" + more[1..];
    }
  }

  lemma InsideHasEntry(t: Files, p: string, info: Info) returns (q: string)
    requires DirectlyInside(t, Inside(p), info)
    ensures q in t && Inside(p) <= q && EntryTowards(t, p, q) == info
  {
    var pre := Inside(p);
    match info {
      case FileInfo(name, mode, size) =>
        q := pre + name;
        assert q[|pre|..] == name;
        FirstPartIs(name, "");
        assert name + "" == name;
      case DirInfo(name) =>
        q :| q in t && pre + name + "/" <= q;
        var more := q[|pre + name|..];
        assert q == pre + name + more && more[0] == '/';
        assert q[|pre|..] == name + more;
        FirstPartIs(name, more);
    }
  }

  // ---------- commits ----------

  /** A commit passes exactly under a live lease that grants writing. Its one receipt is of the class commit,
      under the lease's subject, stamped by its own reading of the clock, and says allow exactly when a
      version results; the answer, the receipt's path and the store then hold that version, whose
      directory, if it is new, has the instant of its own reading. */
  lemma CommitSays(c: Codec, space: string, lease: Option<Lease>, dir: string, ledger: seq<Receipt>, t: Files, store: Store,
                   purpose: string, at: Clock, fault: SnapFault)
    ensures var s, live := CommitStep(c, space, lease, dir, ledger, t, store, purpose, at, fault), Live(lease, space, at.checkedAt);
            var passes := live && lease.value.canWrite;
            var h := TreeHash(c, t);
            var made := passes && (fault.NoFault? || (fault.CopyFails? && h in store));
            && (s.answer.Refused? <==> !passes)
            && (s.answer == Committed(Version(h, dir + "/" + h, "dev")) <==> made)
            && (s.answer.Failed? <==> passes && !made)
            && (!passes ==> s.store == store)
            && (made && h !in store ==> s.store == store[h := Frozen(Freeze(t), at.frozenAt)])
            && (made && h in store ==> s.store == store)
            && (passes && !made ==>
                s.store == if fault.CopyFails? && fault.left.Some? then store[h := Frozen(fault.left.value, at.frozenAt)] else store)
            && |s.ledger| == |ledger| + 1 && s.ledger[..|ledger|] == ledger
            && var r := s.ledger[|ledger|];
               && r.op == "commit" && r.ts == at.stampedAt && r.space == space
               && r.subject == (if lease.Some? then lease.value.subject else "<no-lease>")
               && r.path == (if made then "dev://" + h else "/")
               && (made ==> r.verdict == "allow: snapshot " + purpose)
               && (!passes ==>
                   && Check(lease, space, "commit", at.checkedAt) == Some(s.answer.denial)
                   && r.verdict == "deny: " + DenialText(c, s.answer.denial, lease, space, "commit", "/"))
               && (passes && !made ==>
                   r.verdict == "error: " + (if fault.HashFails? then "hash tree: " else "freeze: ") + fault.msg)
  {
    hide TreeHash, DenialText;
    if Check(lease, space, OP_COMMIT, at.checkedAt).None? && (fault.HashFails? || (fault.CopyFails? && TreeHash(c, t) !in store)) {
      var how := if fault.HashFails? then "hash tree: " else "freeze: ";
      assert "error: " + (how + fault.msg) == "error: " + how + fault.msg;
    }
  }
}
