/** The governed file system: every call crosses the membrane, leaves a receipt, then acts. */
module Mount {
  import opened Codecs
  import opened Governance
  import opened Options
  import opened Retention
  import opened Snapshots
  import opened Trees

  // Open flags, with the values Linux gives them.
  const O_WRONLY: bv32 := 0x1
  const O_RDWR: bv32 := 0x2
  const O_CREATE: bv32 := 0x40
  const O_EXCL: bv32 := 0x80
  const O_TRUNC: bv32 := 0x200
  const O_APPEND: bv32 := 0x400
  const MUTATING: bv32 := O_WRONLY | O_RDWR | O_CREATE | O_APPEND | O_TRUNC

  /** 0o666, what a plain create asks for. */
  const CREATE_MODE: nat := 438

  datatype Call =
    | Open(path: string)
    | OpenFile(path: string, flags: bv32, perm: nat)
    | Create(path: string)
    | ReadDir(path: string)
    | Stat(path: string)
    | Lstat(path: string)
    | Rename(path: string, newPath: string)
    | Remove(path: string)
    | Chroot(path: string, opens: bool)   // `opens`: whether the backend has such a sub-tree to give

  function OpOf(call: Call): Op {
    match call
    case Open(_) => OP_READ
    case OpenFile(_, flags, _) => if flags & MUTATING != 0 then OP_WRITE else OP_READ
    case Create(_) | Rename(_, _) | Remove(_) => OP_WRITE
    case ReadDir(_) | Chroot(_, _) => OP_LIST
    case Stat(_) | Lstat(_) => OP_STAT
  }

  // ---------- the backend ----------

  /** A path as seen from a view rooted at `base`. */
  function Under(base: string, path: string): string {
    if base == "" then path else base + "/" + path
  }

  /** What a listing or a stat tells of an entry. */
  datatype Info = FileInfo(name: string, mode: nat, size: nat) | DirInfo(name: string)

  /** What the wrapped file system returns: an error, nothing more, the file behind a handle at the moment
      it is opened, an entry, or a directory's entries. */
  datatype Reply = Fails | Done | Opens(file: File) | Shows(info: Info) | Lists(infos: set<Info>)

  datatype Backend = Backend(files: Files, reply: Reply)

  /** What opening does to the backend: `O_CREATE` makes a missing file, `O_TRUNC` empties one. */
  function Opened(t: Files, p: string, flags: bv32, perm: nat): Backend {
    if p !in t then
      if flags & O_CREATE != 0 then Backend(t[p := File(perm, "")], Opens(File(perm, ""))) else Backend(t, Fails)
    else if flags & O_CREATE != 0 && flags & O_EXCL != 0 then Backend(t, Fails)
    else if flags & O_TRUNC != 0 then Backend(t[p := t[p].(content := "")], Opens(t[p].(content := "")))
    else Backend(t, Opens(t[p]))
  }

  /** A path up to its first slash. */
  function FirstPart(s: string): string {
    if s == "" || s[0] == '/' then "" else [s[0]] + FirstPart(s[1..])
  }

  /** A path from its last slash on. */
  function BaseName(s: string): string {
    if s == "" || s[|s| - 1] == '/' then "" else BaseName(s[..|s| - 1]) + [s[|s| - 1]]
  }

  /** What every path inside a directory starts with. */
  function Inside(p: string): string { if p == "" then "" else p + "/" }

  predicate IsDir(t: Files, p: string) { p == "" || exists q :: q in t && Inside(p) <= q }

  function InfoOf(name: string, f: File): Info { FileInfo(name, f.mode, |f.content|) }

  function StatOf(t: Files, p: string): Reply {
    if p in t then Shows(InfoOf(BaseName(p), t[p]))
    else if IsDir(t, p) then Shows(DirInfo(BaseName(p)))
    else Fails
  }

  /** The entry of a directory that leads to `q`. */
  function EntryTowards(t: Files, p: string, q: string): Info
    requires q in t && Inside(p) <= q
  {
    var rest := q[|Inside(p)|..];
    if FirstPart(rest) == rest then InfoOf(rest, t[q]) else DirInfo(FirstPart(rest))
  }

  function ListingOf(t: Files, p: string): Reply {
    if p !in t && IsDir(t, p) then Lists(set q | q in t && Inside(p) <= q :: EntryTowards(t, p, q)) else Fails
  }

  /** The ungoverned operation of the wrapped file system. */
  function Effect(t: Files, base: string, call: Call): Backend {
    var p := Under(base, call.path);
    match call
    case Open(_) => Backend(t, if p in t then Opens(t[p]) else Fails)
    case OpenFile(_, flags, perm) => Opened(t, p, flags, perm)
    case Create(_) => Opened(t, p, O_RDWR | O_CREATE | O_TRUNC, CREATE_MODE)
    case ReadDir(_) => Backend(t, ListingOf(t, p))
    case Stat(_) => Backend(t, StatOf(t, p))
    case Lstat(_) => Backend(t, StatOf(t, p))
    case Rename(_, newPath) => if p in t then Backend((t - {p})[Under(base, newPath) := t[p]], Done) else Backend(t, Fails)
    case Remove(_) => if p in t then Backend(t - {p}, Done) else Backend(t, Fails)
    case Chroot(_, opens) => Backend(t, if opens then Done else Fails)
  }

  /** The flags the gate looks at are all the flags that matter: an operation it does not class as a
      write leaves the backend as it was, for every combination of flags. */
  lemma ReadsDoNotWrite(t: Files, base: string, call: Call)
    requires !IsWrite(OpOf(call))
    ensures Effect(t, base, call).files == t
  {
    if call.OpenFile? {
      var flags := call.flags;
      assert flags & MUTATING == 0;
      assert flags & O_CREATE == 0 && flags & O_TRUNC == 0;
    }
  }

  // ---------- the gate ----------

  function SubjectOf(lease: Option<Lease>): string {
    if lease.Some? then lease.value.subject else "<no-lease>"
  }

  /** Readings of the clock in one call: by the membrane, for a new version's directory, and for the
      receipt's stamp. */
  datatype Clock = Clock(checkedAt: int, frozenAt: int, stampedAt: int)

  function Verdict(c: Codec, space: string, lease: Option<Lease>, op: Op, path: string, now: int): string {
    var d := Check(lease, space, op, now);
    if d.Some? then "deny: " + DenialText(c, d.value, lease, space, op, path) else "allow"
  }

  /** The ledger with one more receipt, under the lease's subject. */
  function Noted(c: Codec, ledger: seq<Receipt>, lease: Option<Lease>, space: string, op: Op, path: string,
                 verdict: string, now: int): seq<Receipt> {
    ledger + [Stamped(c, ledger, SubjectOf(lease), space, op, path, verdict, now)]
  }

  /** What a call returns: the membrane's refusal, or what the backend returned. */
  datatype Answer = Denied(denial: Denial) | Returned(reply: Reply)

  datatype Governed = Governed(ledger: seq<Receipt>, files: Files, answer: Answer)

  /** A governed call: one receipt, and the backend's effect only if the membrane allows it. */
  function Govern(c: Codec, space: string, lease: Option<Lease>, base: string, ledger: seq<Receipt>, t: Files,
                  call: Call, at: Clock): Governed {
    var op := OpOf(call);
    var verdict := Verdict(c, space, lease, op, call.path, at.checkedAt);
    var grown := Noted(c, ledger, lease, space, op, call.path, verdict, at.stampedAt);
    match Check(lease, space, op, at.checkedAt)
    case Some(d) => Governed(grown, t, Denied(d))
    case None =>
      var b := Effect(t, base, call);
      Governed(grown, b.files, Returned(b.reply))
  }

  /** A denied call tells nothing of the backend: whatever its contents, answer and receipt are the
      same. Receipts never do. */
  lemma DeniedRevealsNothing(c: Codec, space: string, lease: Option<Lease>, base: string, ledger: seq<Receipt>, t: Files,
                             u: Files, call: Call, at: Clock)
    ensures Govern(c, space, lease, base, ledger, t, call, at).ledger == Govern(c, space, lease, base, ledger, u, call, at).ledger
    ensures Check(lease, space, OpOf(call), at.checkedAt).Some? ==>
            Govern(c, space, lease, base, ledger, t, call, at).answer == Govern(c, space, lease, base, ledger, u, call, at).answer
  {
    hide Effect, Noted, Verdict;
  }

  const COMMIT_SCHEME: string := "dev://"

  datatype CommitAnswer = NoSnapshotter | Refused(denial: Denial) | Failed(err: string) | Committed(version: Version)

  datatype Commitment = Commitment(ledger: seq<Receipt>, store: Store, answer: CommitAnswer)

  /** A commit through a view with a snapshotter: one receipt, pinning the version on success. */
  ghost function CommitStep(c: Codec, space: string, lease: Option<Lease>, dir: string, ledger: seq<Receipt>, t: Files,
                            store: Store, purpose: string, at: Clock, fault: SnapFault): Commitment {
    match Check(lease, space, OP_COMMIT, at.checkedAt)
    case Some(d) =>
      Commitment(Noted(c, ledger, lease, space, OP_COMMIT, "/", "deny: " + DenialText(c, d, lease, space, OP_COMMIT, "/"),
                       at.stampedAt),
                 store, Refused(d))
    case None =>
      var s := SnapStep(c, dir, t, store, at.frozenAt, fault);
      match s.version
      case None => Commitment(Noted(c, ledger, lease, space, OP_COMMIT, "/", "error: " + s.err, at.stampedAt), s.store, Failed(s.err))
      case Some(v) =>
        Commitment(Noted(c, ledger, lease, space, OP_COMMIT, COMMIT_SCHEME + v.id, "allow: snapshot " + purpose, at.stampedAt),
                   s.store, Committed(v))
  }

  class InceptionFS {
    const codec: Codec
    const fs: Tree
    const base: string
    const space: string
    const lease: Option<Lease>
    const receipts: ReceiptLog
    var snap: DevSnapshotter?

    ghost predicate Valid()
      reads this, receipts
    {
      && receipts.Valid() && receipts.codec == codec
      && (snap != null ==> snap.codec == codec)
    }

    constructor (codec: Codec, fs: Tree, space: string, lease: Option<Lease>)
      ensures Valid() && fresh(receipts) && receipts.all == [] && snap == null
      ensures this.codec == codec && this.fs == fs && this.base == "" && this.space == space && this.lease == lease
    {
      this.codec, this.fs, this.base, this.space, this.lease := codec, fs, "", space, lease;
      this.receipts := new ReceiptLog(codec);
      this.snap := null;
    }

    /** A view of a sub-tree: same backend, lease and ledger, and no snapshotter. */
    constructor Sub(parent: InceptionFS, base: string)
      requires parent.Valid()
      ensures Valid() && snap == null
      ensures codec == parent.codec && fs == parent.fs && this.base == base && space == parent.space
      ensures lease == parent.lease && receipts == parent.receipts
    {
      codec, fs, this.base, space := parent.codec, parent.fs, base, parent.space;
      lease, receipts, snap := parent.lease, parent.receipts, null;
    }

    method WithSnapshotter(s: DevSnapshotter)
      requires Valid() && s.codec == codec
      modifies this
      ensures Valid() && snap == s
    {
      snap := s;
    }

    /** Asks the membrane and records the decision, allow or deny. */
    method Gate(op: Op, path: string, at: Clock) returns (denial: Option<Denial>)
      requires Valid()
      modifies receipts
      ensures Valid()
      ensures denial == Check(lease, space, op, at.checkedAt)
      ensures receipts.all == Noted(codec, old(receipts.all), lease, space, op, path,
                                    Verdict(codec, space, lease, op, path, at.checkedAt), at.stampedAt)
    {
      hide Ledger, DenialText;
      denial := Check(lease, space, op, at.checkedAt);
      var subject := "<no-lease>";
      if lease.Some? {
        subject := lease.value.subject;
      }
      if denial.Some? {
        var _ := receipts.Append(subject, space, op, path,
                                 "deny: " + DenialText(codec, denial.value, lease, space, op, path), at.stampedAt);
        return;
      }
      var _ := receipts.Append(subject, space, op, path, "allow", at.stampedAt);
    }

    ghost function Outcome(call: Call, at: Clock): Governed
      requires Valid()
      reads this, receipts, fs
    {
      Govern(codec, space, lease, base, receipts.all, fs.files, call, at)
    }

    method Open(path: string, at: Clock) returns (a: Answer)
      requires Valid()
      modifies receipts
      ensures Valid()
      ensures Governed(receipts.all, fs.files, a) == old(Outcome(Call.Open(path), at))
    {
      hide Ledger, Noted, Verdict;
      var denial := Gate(OP_READ, path, at);
      if denial.Some? {
        return Denied(denial.value);
      }
      var p := Under(base, path);
      return Returned(if p in fs.files then Opens(fs.files[p]) else Fails);
    }

    method OpenFile(path: string, flags: bv32, perm: nat, at: Clock) returns (a: Answer)
      requires Valid()
      modifies receipts, fs
      ensures Valid()
      ensures Governed(receipts.all, fs.files, a) == old(Outcome(Call.OpenFile(path, flags, perm), at))
    {
      hide Ledger, Noted, Verdict;
      var op := OP_READ;
      if flags & (O_WRONLY | O_RDWR | O_CREATE | O_APPEND | O_TRUNC) != 0 {
        op := OP_WRITE;
      }
      var denial := Gate(op, path, at);
      if denial.Some? {
        return Denied(denial.value);
      }
      var b := Opened(fs.files, Under(base, path), flags, perm);
      fs.files := b.files;
      return Returned(b.reply);
    }

    method Create(path: string, at: Clock) returns (a: Answer)
      requires Valid()
      modifies receipts, fs
      ensures Valid()
      ensures Governed(receipts.all, fs.files, a) == old(Outcome(Call.Create(path), at))
    {
      hide Ledger, Noted, Verdict;
      var denial := Gate(OP_WRITE, path, at);
      if denial.Some? {
        return Denied(denial.value);
      }
      var b := Opened(fs.files, Under(base, path), O_RDWR | O_CREATE | O_TRUNC, CREATE_MODE);
      fs.files := b.files;
      return Returned(b.reply);
    }

    method ReadDir(path: string, at: Clock) returns (a: Answer)
      requires Valid()
      modifies receipts
      ensures Valid()
      ensures Governed(receipts.all, fs.files, a) == old(Outcome(Call.ReadDir(path), at))
    {
      hide Ledger, Noted, Verdict;
      var denial := Gate(OP_LIST, path, at);
      if denial.Some? {
        return Denied(denial.value);
      }
      return Returned(ListingOf(fs.files, Under(base, path)));
    }

    method Stat(path: string, at: Clock) returns (a: Answer)
      requires Valid()
      modifies receipts
      ensures Valid()
      ensures Governed(receipts.all, fs.files, a) == old(Outcome(Call.Stat(path), at))
    {
      hide Ledger, Noted, Verdict;
      var denial := Gate(OP_STAT, path, at);
      if denial.Some? {
        return Denied(denial.value);
      }
      return Returned(StatOf(fs.files, Under(base, path)));
    }

    method Lstat(path: string, at: Clock) returns (a: Answer)
      requires Valid()
      modifies receipts
      ensures Valid()
      ensures Governed(receipts.all, fs.files, a) == old(Outcome(Call.Lstat(path), at))
    {
      hide Ledger, Noted, Verdict;
      var denial := Gate(OP_STAT, path, at);
      if denial.Some? {
        return Denied(denial.value);
      }
      return Returned(StatOf(fs.files, Under(base, path)));
    }

    method Rename(path: string, newPath: string, at: Clock) returns (a: Answer)
      requires Valid()
      modifies receipts, fs
      ensures Valid()
      ensures Governed(receipts.all, fs.files, a) == old(Outcome(Call.Rename(path, newPath), at))
    {
      hide Ledger, Noted, Verdict;
      var denial := Gate(OP_WRITE, path, at);
      if denial.Some? {
        return Denied(denial.value);
      }
      var p := Under(base, path);
      if p !in fs.files {
        return Returned(Fails);
      }
      fs.files := (fs.files - {p})[Under(base, newPath) := fs.files[p]];
      return Returned(Done);
    }

    method Remove(path: string, at: Clock) returns (a: Answer)
      requires Valid()
      modifies receipts, fs
      ensures Valid()
      ensures Governed(receipts.all, fs.files, a) == old(Outcome(Call.Remove(path), at))
    {
      hide Ledger, Noted, Verdict;
      var denial := Gate(OP_WRITE, path, at);
      if denial.Some? {
        return Denied(denial.value);
      }
      var p := Under(base, path);
      if p !in fs.files {
        return Returned(Fails);
      }
      fs.files := fs.files - {p};
      return Returned(Done);
    }

    method Chroot(path: string, opens: bool, at: Clock) returns (a: Answer, sub: InceptionFS?)
      requires Valid()
      modifies receipts
      ensures Valid()
      ensures Governed(receipts.all, fs.files, a) == old(Outcome(Call.Chroot(path, opens), at))
      ensures sub != null <==> a == Returned(Done)
      ensures sub != null ==> sub.Valid() && sub.snap == null && sub.receipts == receipts && sub.fs == fs
                              && sub.base == Under(base, path) && sub.space == space && sub.lease == lease
    {
      hide Ledger, Noted, Verdict;
      var denial := Gate(OP_LIST, path, at);
      if denial.Some? {
        return Denied(denial.value), null;
      }
      if !opens {
        return Returned(Fails), null;
      }
      sub := new InceptionFS.Sub(this, Under(base, path));
      return Returned(Done), sub;
    }

    /** Freezes the space and binds the version into the ledger: at most one receipt, none without a
        snapshotter. */
    method Commit(purpose: string, walk: seq<string>, at: Clock, fault: SnapFault) returns (a: CommitAnswer)
      requires Valid()
      requires snap != null ==> multiset(walk) == multiset(snap.root.files.Keys)
      modifies receipts, snap
      ensures Valid()
      ensures snap == null ==> a == NoSnapshotter && receipts.all == old(receipts.all)
      ensures snap != null ==>
              Commitment(receipts.all, snap.store, a)
              == CommitStep(codec, space, lease, snap.dir, old(receipts.all), snap.root.files, old(snap.store), purpose, at, fault)
    {
      if snap == null {
        return NoSnapshotter;
      }
      hide *;
      var denial := Check(lease, space, OP_COMMIT, at.checkedAt);
      if denial.Some? {
        a := RefuseCommit(snap, denial.value, purpose, at, fault);
        return;
      }
      a := FreezeAndPin(snap, purpose, walk, at, fault);
    }

    method RefuseCommit(s: DevSnapshotter, denial: Denial, ghost purpose: string, at: Clock, ghost fault: SnapFault)
      returns (a: CommitAnswer)
      requires Valid() && snap == s && Check(lease, space, OP_COMMIT, at.checkedAt) == Some(denial)
      modifies receipts
      ensures Valid()
      ensures Commitment(receipts.all, s.store, a)
              == CommitStep(codec, space, lease, s.dir, old(receipts.all), s.root.files, s.store, purpose, at, fault)
    {
      hide SnapStep, Ledger, Stamped;
      var subject := "<no-lease>";
      if lease.Some? {
        subject := lease.value.subject;
      }
      var _ := receipts.Append(subject, space, OP_COMMIT, "/",
                               "deny: " + DenialText(codec, denial, lease, space, OP_COMMIT, "/"), at.stampedAt);
      return Refused(denial);
    }

    method FreezeAndPin(s: DevSnapshotter, purpose: string, walk: seq<string>, at: Clock, fault: SnapFault)
      returns (a: CommitAnswer)
      requires Valid() && snap == s && Check(lease, space, OP_COMMIT, at.checkedAt).None?
      requires multiset(walk) == multiset(s.root.files.Keys)
      modifies receipts, s
      ensures Valid()
      ensures Commitment(receipts.all, s.store, a)
              == CommitStep(codec, space, lease, s.dir, old(receipts.all), s.root.files, old(s.store), purpose, at, fault)
    {
      hide SnapStep, Ledger, Stamped, DenialText;
      var subject := "<no-lease>";
      if lease.Some? {
        subject := lease.value.subject;
      }
      var v, err := s.Snapshot(walk, at.frozenAt, fault);
      if v.None? {
        var _ := receipts.Append(subject, space, OP_COMMIT, "/", "error: " + err, at.stampedAt);
        return Failed(err);
      }
      var _ := receipts.Append(subject, space, OP_COMMIT, COMMIT_SCHEME + v.value.id, "allow: snapshot " + purpose, at.stampedAt);
      return Committed(v.value);
    }
  }
}
