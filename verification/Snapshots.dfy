/** Content-addressed versions: freezing the working tree into the version store. */
module Snapshots {
  import opened Codecs
  import opened Names
  import opened Options
  import opened Retain
  import opened Retention
  import opened Sorting
  import opened Text
  import opened Trees

  /** A read-only copy: every path with its content, mode 0o444. */
  function Freeze(t: Files): Files {
    map p | p in t :: File(READ_ONLY, t[p].content)
  }

  /** A directory of the version store: its files and its modification time. */
  datatype Frozen = Frozen(files: Files, created: int)

  type Store = map<string, Frozen>

  /** What the environment does to one snapshot. A copy that fails may leave a directory behind with
      whatever it had written. */
  datatype SnapFault = NoFault | HashFails(msg: string) | CopyFails(msg: string, left: Option<Files>)

  datatype Snapped = Snapped(store: Store, version: Option<Version>, err: string)

  function RefOf(dir: string, id: string): string { dir + "/" + id }

  function VersionOf(dir: string, id: string): Version { Version(id, RefOf(dir, id), "dev") }

  ghost function SnapStep(c: Codec, dir: string, t: Files, store: Store, now: int, fault: SnapFault): Snapped {
    var h := TreeHash(c, t);
    if fault.HashFails? then Snapped(store, None, "hash tree: " + fault.msg)
    else if h in store then Snapped(store, Some(VersionOf(dir, h)), "")
    else if fault.CopyFails? then
      Snapped(if fault.left.Some? then store[h := Frozen(fault.left.value, now)] else store, None, "freeze: " + fault.msg)
    else Snapped(store[h := Frozen(Freeze(t), now)], Some(VersionOf(dir, h)), "")
  }

  /** Copies every file the walk meets. */
  method CopyTreeReadOnly(src: Files, walk: seq<string>) returns (dst: Files)
    requires multiset(walk) == multiset(src.Keys)
    ensures dst == Freeze(src)
  {
    WalkMembers(walk, src.Keys);
    dst := map[];
    for i := 0 to |walk|
      invariant forall p :: p in dst <==> p in walk[..i]
      invariant forall p :: p in dst ==> p in src && dst[p] == File(READ_ONLY, src[p].content)
    {
      assert walk[i] in walk && walk[..i + 1] == walk[..i] + [walk[i]];
      dst := dst[walk[i] := File(READ_ONLY, src[walk[i]].content)];
    }
    assert walk[..|walk|] == walk;
  }

  // ---------- the listing ----------

  function Meta(dir: string, id: string, f: Frozen): VersionMeta { VersionMeta(VersionOf(dir, id), f.created) }

  function Metas(dir: string, ids: seq<string>, store: Store): (ms: seq<VersionMeta>)
    requires forall i :: 0 <= i < |ids| ==> ids[i] in store
    ensures |ms| == |ids|
  {
    if ids == [] then []
    else Metas(dir, ids[..|ids| - 1], store) + [Meta(dir, ids[|ids| - 1], store[ids[|ids| - 1]])]
  }

  /** The frozen versions in directory order, which is by name. */
  ghost function Listing(dir: string, store: Store): seq<VersionMeta> {
    SortedNamesMembers(store.Keys);
    Metas(dir, SortedNames(store.Keys), store)
  }

  /** The store after everything at `ref` is removed. */
  function Removed(dir: string, store: Store, ref: string): Store {
    map id | id in store && RefOf(dir, id) != ref :: store[id]
  }

  class DevSnapshotter {
    const codec: Codec
    const root: Tree
    const dir: string
    var store: Store

    constructor (codec: Codec, root: Tree, dir: string)
      ensures this.codec == codec && this.root == root && this.dir == dir && store == map[]
    {
      this.codec, this.root, this.dir, store := codec, root, dir, map[];
    }

    /** Directory entries arrive sorted by name. */
    method List(names: seq<string>, fails: bool) returns (out: Option<seq<VersionMeta>>)
      requires names == SortedNames(store.Keys)
      ensures out == if fails then None else Some(Listing(dir, store))
    {
      if fails {
        return None;
      }
      SortedNamesMembers(store.Keys);
      var list: seq<VersionMeta> := [];
      for i := 0 to |names|
        invariant forall j :: 0 <= j < |names| ==> names[j] in store
        invariant list == Metas(dir, names[..i], store)
      {
        assert names[..i + 1][..i] == names[..i];
        list := list + [VersionMeta(Version(names[i], RefOf(dir, names[i]), "dev"), store[names[i]].created)];
      }
      assert names[..|names|] == names;
      return Some(list);
    }

    method Snapshot(walk: seq<string>, now: int, fault: SnapFault) returns (v: Option<Version>, err: string)
      requires multiset(walk) == multiset(root.files.Keys)
      modifies this
      ensures Snapped(store, v, err) == SnapStep(codec, dir, root.files, old(store), now, fault)
    {
      if fault.HashFails? {
        return None, "hash tree: " + fault.msg;
      }
      var h := HashTree(codec, root, walk);
      if h in store {
        return Some(VersionOf(dir, h)), "";
      }
      if fault.CopyFails? {
        if fault.left.Some? {
          store := store[h := Frozen(fault.left.value, now)];
        }
        return None, "freeze: " + fault.msg;
      }
      var copy := CopyTreeReadOnly(root.files, walk);
      store := store[h := Frozen(copy, now)];
      return Some(VersionOf(dir, h)), "";
    }

    /** Removes the directory a version's handle names; a missing one is not an error. */
    method Prune(v: Version, fails: bool) returns (ok: bool)
      modifies this
      ensures ok == !fails
      ensures store == if fails then old(store) else Removed(dir, old(store), v.ref)
    {
      if fails {
        return false;
      }
      store := Removed(dir, store, v.ref);
      return true;
    }
  }

  // ---------- the store behaves as the retention loop assumes ----------

  lemma RefsDiffer(dir: string, a: string, b: string)
    ensures RefOf(dir, a) == RefOf(dir, b) <==> a == b
  {
    assert RefOf(dir, a)[|dir| + 1..] == a && RefOf(dir, b)[|dir| + 1..] == b;
  }

  function Except(x: string): string -> bool { p => p != x }

  /** Taking one name out of a set takes it out of the sorted listing. */
  lemma SortedWithout(s: set<string>, x: string)
    ensures SortedNames(s - {x}) == Filter(SortedNames(s), Except(x))
  {
    var walk := Filter(SomeOrder(s), Except(x));
    LexOrder();
    SortFilter(SomeOrder(s), Lex, Except(x));
    forall e
      ensures multiset(walk)[e] == multiset(s - {x})[e]
    {
      FilterCounts(SomeOrder(s), Except(x), e);
    }
    WalkOrderIrrelevant(walk, s - {x});
  }

  lemma {:induction false} MetasWithout(dir: string, ids: seq<string>, store: Store, rest: Store, x: string)
    requires forall i :: 0 <= i < |ids| ==> ids[i] in store
    requires rest == Removed(dir, store, RefOf(dir, x))
    ensures forall i :: 0 <= i < |Filter(ids, Except(x))| ==> Filter(ids, Except(x))[i] in rest
    ensures Metas(dir, Filter(ids, Except(x)), rest) == Without(Metas(dir, ids, store), {RefOf(dir, x)})
  {
    if ids != [] {
      var n := |ids| - 1;
      MetasWithout(dir, ids[..n], store, rest, x);
      RefsDiffer(dir, ids[n], x);
      SnocParts(Metas(dir, ids[..n], store), Meta(dir, ids[n], store[ids[n]]));
      if ids[n] != x {
        SnocParts(Filter(ids[..n], Except(x)), ids[n]);
      }
    }
  }

  /** Removing a version's directory removes exactly its entry from the listing, keeping the order. */
  lemma ListingAfterPrune(dir: string, store: Store, id: string)
    ensures Listing(dir, Removed(dir, store, RefOf(dir, id))) == Without(Listing(dir, store), {RefOf(dir, id)})
  {
    hide SortedNames, Metas, Without, Filter, RefOf;
    var rest := Removed(dir, store, RefOf(dir, id));
    forall p
      ensures p in rest.Keys <==> p in store.Keys - {id}
    {
      RefsDiffer(dir, p, id);
    }
    assert rest.Keys == store.Keys - {id};
    SortedWithout(store.Keys, id);
    SortedNamesMembers(store.Keys);
    SortedNamesMembers(rest.Keys);
    MetasWithout(dir, SortedNames(store.Keys), store, rest, id);
  }

  lemma {:induction false} MetasRefs(dir: string, ids: seq<string>, store: Store)
    requires forall i :: 0 <= i < |ids| ==> ids[i] in store
    ensures Refs(Metas(dir, ids, store)) == set p | p in ids :: RefOf(dir, p)
  {
    var ms := Metas(dir, ids, store);
    if ids != [] {
      hide Refs, RefOf;
      var n := |ids| - 1;
      MetasRefs(dir, ids[..n], store);
      MetasFront(dir, ids, store);
      assert ids == ids[..n] + [ids[n]];
      RefsSnoc(ms);
    }
  }

  lemma MetasFront(dir: string, ids: seq<string>, store: Store)
    requires forall i :: 0 <= i < |ids| ==> ids[i] in store
    requires ids != []
    ensures var n, ms := |ids| - 1, Metas(dir, ids, store);
            ms[..n] == Metas(dir, ids[..n], store) && ms[n].version.ref == RefOf(dir, ids[n])
  {
  }

  lemma {:induction false} MetasDistinct(dir: string, ids: seq<string>, store: Store)
    requires forall i :: 0 <= i < |ids| ==> ids[i] in store
    requires forall i, j :: 0 <= i < j < |ids| ==> ids[i] != ids[j]
    ensures DistinctRefs(Metas(dir, ids, store))
  {
    var ms := Metas(dir, ids, store);
    if ids == [] {
      assert Refs(ms) == {};
    } else {
      hide Refs, RefOf, DistinctRefs, Metas;
      var n := |ids| - 1;
      MetasDistinct(dir, ids[..n], store);
      MetasFront(dir, ids, store);
      MetasRefs(dir, ids[..n], store);
      forall p | p in ids[..n]
        ensures RefOf(dir, p) != RefOf(dir, ids[n])
      {
        RefsDiffer(dir, p, ids[n]);
      }
      DistinctSnoc(ms);
    }
  }

  lemma OnceEach(ps: seq<string>, s: set<string>, i: nat, j: nat)
    requires multiset(ps) == multiset(s) && i < j < |ps|
    ensures ps[i] != ps[j]
  {
    if ps[i] == ps[j] {
      TwiceCounted(ps, i, j);
    }
  }

  lemma TwiceCounted(ps: seq<string>, i: nat, j: nat)
    requires i < j < |ps| && ps[i] == ps[j]
    ensures multiset(ps)[ps[j]] >= 2
  {
    var front, back := ps[..j], ps[j..];
    assert ps == front + back;
    assert front[i] in multiset(front) && back[0] in multiset(back);
  }

  /** The listing meets what the retention loop needs of a store. */
  lemma ListingDistinct(dir: string, store: Store)
    ensures DistinctRefs(Listing(dir, store))
  {
    var ps := SortedNames(store.Keys);
    SortedNamesMembers(store.Keys);
    forall i, j | 0 <= i < j < |ps|
      ensures ps[i] != ps[j]
    {
      OnceEach(ps, store.Keys, i, j);
    }
    MetasDistinct(dir, ps, store);
  }

  lemma {:induction false} MetasAt(dir: string, ids: seq<string>, store: Store, i: nat)
    requires i < |ids| && forall j :: 0 <= j < |ids| ==> ids[j] in store
    ensures Metas(dir, ids, store)[i] == VersionMeta(Version(ids[i], dir + "/" + ids[i], "dev"), store[ids[i]].created)
  {
    if i < |ids| - 1 {
      MetasAt(dir, ids[..|ids| - 1], store, i);
    }
  }

  lemma NamesInOrder(s: set<string>, i: nat, j: nat)
    requires i < j < |SortedNames(s)|
    ensures Lex(SortedNames(s)[i], SortedNames(s)[j])
  {
    var ps := SortedNames(s);
    LexOrder();
    SortOrdered(SomeOrder(s), Lex);
    SortedNamesMembers(s);
    OnceEach(ps, s, i, j);
    assert !Lex(ps[j], ps[i]);
    LexTrichotomy(ps[i], ps[j]);
  }

  /** The listing shows each directory once, in the order of names, under its handle and with its time. */
  lemma ListingShows(dir: string, store: Store)
    ensures var l := Listing(dir, store);
            && (forall i :: 0 <= i < |l| ==>
                var id := l[i].version.id;
                id in store && l[i].version == Version(id, dir + "/" + id, "dev") && l[i].created == store[id].created)
            && (forall i, j :: 0 <= i < j < |l| ==> Lex(l[i].version.id, l[j].version.id))
            && (forall id :: id in store ==> exists i :: 0 <= i < |l| && l[i].version.id == id)
  {
    hide SortedNames, Metas;
    var ps, l := SortedNames(store.Keys), Listing(dir, store);
    SortedNamesMembers(store.Keys);
    forall i | 0 <= i < |l|
      ensures l[i] == VersionMeta(Version(ps[i], dir + "/" + ps[i], "dev"), store[ps[i]].created)
    {
      MetasAt(dir, ps, store, i);
    }
    forall i, j | 0 <= i < j < |l|
      ensures Lex(l[i].version.id, l[j].version.id)
    {
      NamesInOrder(store.Keys, i, j);
    }
    forall id | id in store
      ensures exists i :: 0 <= i < |l| && l[i].version.id == id
    {
      assert id in ps;
      var i :| 0 <= i < |ps| && ps[i] == id;
      assert l[i].version.id == id;
    }
  }

  // ---------- what a version id stands for ----------

  /** The directory `id` is the frozen copy of a tree that hashes to `id`. */
  ghost predicate FrozenFrom(c: Codec, id: string, f: Frozen) {
    exists t: Files :: LineSafe(t) && TreeHash(c, t) == id && f.files == Freeze(t)
  }

  ghost predicate Faithful(c: Codec, store: Store) {
    forall id :: id in store ==> FrozenFrom(c, id, store[id])
  }

  /** A copy that fails leaves nothing behind. */
  predicate CleanFault(fault: SnapFault) { fault.CopyFails? ==> fault.left.None? }

  /** The tree has a colliding one under this hash. */
  ghost predicate Collides(c: Codec, t: Files) {
    exists u: Files :: LineSafe(u) && TreeHash(c, u) == TreeHash(c, t) && TreeCollision(c, t, u)
  }

  /** Frozen versions are immutable: a snapshot changes no entry and adds at most the tree's own. */
  lemma SnapshotOnlyAdds(c: Codec, dir: string, t: Files, store: Store, now: int, fault: SnapFault)
    ensures var s := SnapStep(c, dir, t, store, now, fault);
            && (forall id :: id in store ==> id in s.store && s.store[id] == store[id])
            && (forall id :: id in s.store ==> id in store || id == TreeHash(c, t))
            && (s.version.Some? ==> s.version.value.id == TreeHash(c, t) && s.version.value.id in s.store)
  {
    hide TreeHash, Freeze;
  }

  /** The tree's id is absent and its copy fails with a directory left behind. */
  ghost predicate LeavesPart(c: Codec, t: Files, store: Store, fault: SnapFault) {
    fault.CopyFails? && fault.left.Some? && TreeHash(c, t) !in store
  }

  /** From a store whose ids stand for trees that hash to them, a snapshot keeps it so exactly when it
      leaves no directory behind, or leaves a tree with that very hash - which, unless the hash collides,
      is the complete copy. */
  lemma SnapshotFaithfulIff(c: Codec, dir: string, t: Files, store: Store, now: int, fault: SnapFault)
    requires LineSafe(t) && Faithful(c, store)
    ensures Faithful(c, SnapStep(c, dir, t, store, now, fault).store) <==>
            !LeavesPart(c, t, store, fault) || FrozenFrom(c, TreeHash(c, t), Frozen(fault.left.value, now))
    ensures WellFormed(c) && !Collides(c, t) ==>
            (Faithful(c, SnapStep(c, dir, t, store, now, fault).store) <==>
             !LeavesPart(c, t, store, fault) || fault.left.value == Freeze(t))
  {
    hide TreeHash, LineSafe, FrozenFrom, WellFormed, Collides, Freeze;
    var h := TreeHash(c, t);
    var s := SnapStep(c, dir, t, store, now, fault);
    FrozenIsFrom(c, t);
    if LeavesPart(c, t, store, fault) && WellFormed(c) && !Collides(c, t) {
      FrozenFromIff(c, t, Frozen(fault.left.value, now));
    }
    assert LeavesPart(c, t, store, fault) ==> h in s.store && s.store[h] == Frozen(fault.left.value, now);
    forall id | id in store
      ensures id in s.store && FrozenFrom(c, id, s.store[id])
    {
    }
  }

  /** Unless the hash collides, only the complete copy of a tree is a tree with its hash. */
  lemma FrozenFromIff(c: Codec, t: Files, f: Frozen)
    requires WellFormed(c) && LineSafe(t) && !Collides(c, t)
    ensures FrozenFrom(c, TreeHash(c, t), f) <==> f.files == Freeze(t)
  {
    hide TreeHash, LineSafe, TreeCollision, WellFormed;
    var h := TreeHash(c, t);
    FrozenIsFrom(c, t);
    if FrozenFrom(c, h, f) {
      var u: Files :| LineSafe(u) && TreeHash(c, u) == h && f.files == Freeze(u);
      TreeHashDetermines(c, t, u);
    }
  }

  lemma FrozenIsFrom(c: Codec, t: Files)
    requires LineSafe(t)
    ensures forall f: Frozen :: f.files == Freeze(t) ==> FrozenFrom(c, TreeHash(c, t), f)
  {
  }

  /** In such a store the directory of any tree's id holds that tree's paths and contents, unless the
      hash collides. */
  lemma FaithfulHolds(c: Codec, store: Store, t: Files)
    requires WellFormed(c) && Faithful(c, store) && LineSafe(t) && TreeHash(c, t) in store
    ensures store[TreeHash(c, t)].files == Freeze(t) || Collides(c, t)
  {
    hide TreeHash, LineSafe, TreeCollision, WellFormed;
    var h := TreeHash(c, t);
    var u: Files :| LineSafe(u) && TreeHash(c, u) == h && store[h].files == Freeze(u);
    TreeHashDetermines(c, t, u);
  }

  /** So while failing copies leave nothing behind, every id in the store stands for a tree that hashes
      to it; and a snapshot that succeeds, by copying or by finding the id present, yields a version
      whose directory holds the working tree's paths and contents, unless the hash collides. */
  lemma SnapshotFaithful(c: Codec, dir: string, t: Files, store: Store, now: int, fault: SnapFault)
    requires WellFormed(c) && LineSafe(t) && Faithful(c, store) && CleanFault(fault)
    ensures var s := SnapStep(c, dir, t, store, now, fault);
            && Faithful(c, s.store)
            && (s.version.Some? ==> s.store[TreeHash(c, t)].files == Freeze(t) || Collides(c, t))
  {
    hide TreeHash, LineSafe, Faithful, Collides, WellFormed;
    SnapshotFaithfulIff(c, dir, t, store, now, fault);
    var s := SnapStep(c, dir, t, store, now, fault);
    if s.version.Some? {
      FaithfulHolds(c, s.store, t);
    }
  }

  /** After a first attempt under any fault, a second one that meets no fault reports success, and its
      version is the working tree exactly when the first left no other directory in its place: the
      directory's mere existence is taken for its content. */
  lemma RetryFaithfulIff(c: Codec, dir: string, t: Files, store: Store, now: int, fault: SnapFault, later: int)
    requires TreeHash(c, t) !in store
    ensures var retried := SnapStep(c, dir, t, SnapStep(c, dir, t, store, now, fault).store, later, NoFault);
            && retried.version == Some(VersionOf(dir, TreeHash(c, t)))
            && (retried.store[TreeHash(c, t)].files == Freeze(t) <==>
                !(fault.CopyFails? && fault.left.Some? && fault.left.value != Freeze(t)))
  {
    hide TreeHash;
  }

  /** So a copy that fails part way poisons its id: the retry reports success over the remains. */
  lemma PartialCopyPoisons(c: Codec, dir: string, t: Files, store: Store, now: int, later: int, msg: string, left: Files)
    requires TreeHash(c, t) !in store && left != Freeze(t)
    ensures var failed := SnapStep(c, dir, t, store, now, CopyFails(msg, Some(left)));
            var retried := SnapStep(c, dir, t, failed.store, later, NoFault);
            && failed.version == None && retried.version == Some(VersionOf(dir, TreeHash(c, t)))
            && retried.store[TreeHash(c, t)].files == left != Freeze(t)
  {
  }
}
