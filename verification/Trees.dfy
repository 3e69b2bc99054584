/** Working trees and the portable, content-addressed version store. */
module Trees {
  import opened Codecs
  import opened Names
  import opened Sorting
  import opened Text

  /** A regular file: its permission bits and its bytes. */
  datatype File = File(mode: nat, content: string)

  /** A tree by relative path. Directories exist only as prefixes of paths. */
  type Files = map<string, File>

  class Tree {
    var files: Files

    constructor (files: Files)
      ensures this.files == files
    {
      this.files := files;
    }
  }

  const NEWLINE: char := '\n'

  /** 0o444, the mode every frozen or received file is created with. */
  const READ_ONLY: nat := 292

  predicate LineSafe(t: Files) { forall p :: p in t ==> NEWLINE !in p }

  // ---------- the digest of a tree ----------

  /** One file's line, without its newline: path, octal mode and content digest. */
  function Row(c: Codec, path: string, f: File): string {
    path + [BAR] + Numeral(f.mode, 8) + [BAR] + c.digest(f.content)
  }

  function Lines(c: Codec, ps: seq<string>, t: Files): string
    requires forall i :: 0 <= i < |ps| ==> ps[i] in t
  {
    if ps == [] then "" else Row(c, ps[0], t[ps[0]]) + [NEWLINE] + Lines(c, ps[1..], t)
  }

  ghost function TreeText(c: Codec, t: Files): string {
    SortedNamesMembers(t.Keys);
    Lines(c, SortedNames(t.Keys), t)
  }

  ghost function TreeHash(c: Codec, t: Files): string {
    c.digest(TreeText(c, t))
  }

  predicate SameFile(c: Codec, f: File, g: File) {
    f.mode == g.mode && c.digest(f.content) == c.digest(g.content)
  }

  lemma HashHasNo(h: string, d: char)
    requires IsHash(h) && !IsHex(d)
    ensures d !in h
  {
  }

  lemma RowDetermines(c: Codec, p: string, f: File, q: string, g: File)
    requires WellFormed(c) && Row(c, p, f) == Row(c, q, g)
    ensures p == q && SameFile(c, f, g)
  {
    var h, k := c.digest(f.content), c.digest(g.content);
    assert IsHash(h) && IsHash(k);
    HashHasNo(h, BAR);
    HashHasNo(k, BAR);
    var m, n := Numeral(f.mode, 8), Numeral(g.mode, 8);
    SplitLast(p + [BAR] + m, h, q + [BAR] + n, k, BAR);
    SplitLast(p, m, q, n, BAR);
    NumeralInjective(f.mode, g.mode, 8);
  }

  /** A file's line breaks only where its path does. */
  lemma RowNewlines(c: Codec, p: string, f: File)
    requires WellFormed(c)
    ensures Count(Row(c, p, f), NEWLINE) == Count(p, NEWLINE)
  {
    var m, h := Numeral(f.mode, 8), c.digest(f.content);
    var tail := [BAR] + m + [BAR] + h;
    assert IsHash(h);
    HashHasNo(h, NEWLINE);
    CountZero(tail, NEWLINE);
    CountConcat(p, tail, NEWLINE);
    assert Row(c, p, f) == p + tail;
  }

  /** Position by position, as far as both go, the paths hold equally many newlines. */
  predicate SameNewlines(ps: seq<string>, qs: seq<string>) {
    forall i :: 0 <= i < |ps| && i < |qs| ==> Count(ps[i], NEWLINE) == Count(qs[i], NEWLINE)
  }

  lemma SameNewlinesTail(ps: seq<string>, qs: seq<string>)
    requires SameNewlines(ps, qs) && ps != [] && qs != []
    ensures Count(ps[0], NEWLINE) == Count(qs[0], NEWLINE) && SameNewlines(ps[1..], qs[1..])
  {
    forall i | 0 <= i < |ps[1..]| && i < |qs[1..]|
      ensures Count(ps[1..][i], NEWLINE) == Count(qs[1..][i], NEWLINE)
    {
      assert Count(ps[i + 1], NEWLINE) == Count(qs[i + 1], NEWLINE);
    }
  }

  lemma {:induction false} LinesDetermine(c: Codec, ps: seq<string>, t: Files, qs: seq<string>, u: Files)
    requires WellFormed(c) && SameNewlines(ps, qs)
    requires forall i :: 0 <= i < |ps| ==> ps[i] in t
    requires forall i :: 0 <= i < |qs| ==> qs[i] in u
    requires Lines(c, ps, t) == Lines(c, qs, u)
    ensures ps == qs
    ensures forall i :: 0 <= i < |ps| ==> SameFile(c, t[ps[i]], u[ps[i]])
  {
    hide Row, SameNewlines, SameFile, WellFormed;
    if ps != [] && qs != [] {
      var p, q := ps[0], qs[0];
      SameNewlinesTail(ps, qs);
      RowNewlines(c, p, t[p]);
      RowNewlines(c, q, u[q]);
      SplitFirst(Row(c, p, t[p]), Lines(c, ps[1..], t), Row(c, q, u[q]), Lines(c, qs[1..], u), NEWLINE);
      RowDetermines(c, p, t[p], q, u[q]);
      LinesDetermine(c, ps[1..], t, qs[1..], u);
      assert ps == [p] + ps[1..] && qs == [q] + qs[1..];
    }
  }

  /** Two trees with different digested text and the same digest, or two contents likewise. */
  ghost predicate TreeCollision(c: Codec, t: Files, u: Files) {
    || (TreeText(c, t) != TreeText(c, u) && TreeHash(c, t) == TreeHash(c, u))
    || (exists p :: p in t && p in u && t[p].content != u[p].content && c.digest(t[p].content) == c.digest(u[p].content))
  }

  lemma SamePathsSameTree(c: Codec, ps: seq<string>, t: Files, u: Files)
    requires forall p :: p in ps <==> p in t
    requires forall p :: p in ps <==> p in u
    requires forall i :: 0 <= i < |ps| ==> SameFile(c, t[ps[i]], u[ps[i]])
    ensures t.Keys == u.Keys && forall p :: p in t ==> SameFile(c, t[p], u[p])
  {
    forall p
      ensures p in t <==> p in u
    {
      assert p in ps <==> p in t;
    }
    forall p | p in t
      ensures SameFile(c, t[p], u[p])
    {
      assert p in ps;
      var i :| 0 <= i < |ps| && ps[i] == p;
    }
  }

  /** The digested text tells trees apart up to how newlines are spread over their paths: two trees
      with the same text hold the same paths exactly when their sorted paths hold equally many newlines,
      position by position, and then agree in every mode and content digest. */
  lemma TreeTextDeterminesIff(c: Codec, t: Files, u: Files)
    requires WellFormed(c) && TreeText(c, t) == TreeText(c, u)
    ensures t.Keys == u.Keys <==> SameNewlines(SortedNames(t.Keys), SortedNames(u.Keys))
    ensures t.Keys == u.Keys ==> forall p :: p in t ==> SameFile(c, t[p], u[p])
  {
    hide SortedNames, Lines, WellFormed, SameFile;
    SortedNamesMembers(t.Keys);
    SortedNamesMembers(u.Keys);
    if SameNewlines(SortedNames(t.Keys), SortedNames(u.Keys)) {
      LinesDetermine(c, SortedNames(t.Keys), t, SortedNames(u.Keys), u);
      SamePathsSameTree(c, SortedNames(t.Keys), t, u);
    }
  }

  /** Trees that hash alike are the same in every path, mode and content, unless a hash collision
      shows, exactly when their sorted paths hold equally many newlines, position by position. */
  lemma TreeHashDeterminesIff(c: Codec, t: Files, u: Files)
    requires WellFormed(c) && TreeHash(c, t) == TreeHash(c, u) && !TreeCollision(c, t, u)
    ensures t == u <==> SameNewlines(SortedNames(t.Keys), SortedNames(u.Keys))
  {
    hide TreeText, SortedNames;
    TreeTextDeterminesIff(c, t, u);
    if t.Keys == u.Keys {
      forall p | p in t
        ensures t[p] == u[p]
      {
        assert SameFile(c, t[p], u[p]);
      }
    }
  }

  lemma LineSafeNewlines(t: Files, u: Files)
    requires LineSafe(t) && LineSafe(u)
    ensures SameNewlines(SortedNames(t.Keys), SortedNames(u.Keys))
  {
    hide SortedNames;
    var ps, qs := SortedNames(t.Keys), SortedNames(u.Keys);
    SortedNamesMembers(t.Keys);
    SortedNamesMembers(u.Keys);
    forall i | 0 <= i < |ps| && i < |qs|
      ensures Count(ps[i], NEWLINE) == Count(qs[i], NEWLINE)
    {
      assert ps[i] in t && qs[i] in u;
      CountZero(ps[i], NEWLINE);
      CountZero(qs[i], NEWLINE);
    }
  }

  /** So trees without newlines in their paths that hash alike are the same, or exhibit a collision. */
  lemma TreeHashDetermines(c: Codec, t: Files, u: Files)
    requires WellFormed(c) && LineSafe(t) && LineSafe(u)
    requires TreeHash(c, t) == TreeHash(c, u)
    ensures t == u || TreeCollision(c, t, u)
  {
    hide TreeHash, TreeCollision, LineSafe, SameNewlines;
    if !TreeCollision(c, t, u) {
      LineSafeNewlines(t, u);
      TreeHashDeterminesIff(c, t, u);
    }
  }

  lemma PairOrdered(a: string, b: string)
    requires Lex(a, b)
    ensures StableSort([a, b], Lex) == [a, b]
  {
    LexTrichotomy(a, b);
    SortFixesOrdered([a, b], Lex);
  }

  lemma PairInOrder()
    ensures SortedNames({"a", "b"}) == ["a", "b"]
  {
    assert Lex("a", "b") by {
      assert "a"[0] < "b"[0];
    }
    hide *;
    PairOrdered("a", "b");
    assert multiset(["a", "b"]) == multiset({"a", "b"});
    WalkOrderIrrelevant(["a", "b"], {"a", "b"});
  }

  lemma OneInOrder(p: string)
    ensures SortedNames({p}) == [p]
  {
    WalkOrderIrrelevant([p], {p});
    SortFixesOrdered([p], Lex);
  }

  /** The digested text of a single file: path, octal mode and content digest joined by bars, and a newline. */
  lemma TreeTextOfOne(c: Codec, p: string, f: File)
    ensures TreeText(c, map[p := f]) == p + "|" + Numeral(f.mode, 8) + "|" + c.digest(f.content) + "\n"
  {
    hide SortedNames, Lines, Numeral;
    var t := map[p := f];
    assert t.Keys == {p};
    OneInOrder(p);
    TextOf(c, t, [p]);
    OneLine(c, p, t);
  }

  /** Under every hash, one file whose path holds a newline can pass for two files: the digest then
      tells neither paths nor file count apart. */
  lemma NewlinesBreakTreeHash(c: Codec, x: string, y: string) returns (one: Files, two: Files)
    ensures |one| == 1 && |two| == 2 && LineSafe(two) && !LineSafe(one)
    ensures TreeText(c, one) == TreeText(c, two) && TreeHash(c, one) == TreeHash(c, two)
  {
    var f, g := File(READ_ONLY, x), File(READ_ONLY, y);
    var forged := Row(c, "a", f) + [NEWLINE] + "b";
    one, two := map[forged := g], map["a" := f, "b" := g];
    hide *;
    ForgedKeys(one, forged, g, |Row(c, "a", f)|);
    TwoKeys(two, f, g);
    ForgedText(c, f, g, one, two, forged);
    HashOfText(c, one);
    HashOfText(c, two);
  }

  lemma ForgedText(c: Codec, f: File, g: File, one: Files, two: Files, forged: string)
    requires forged == Row(c, "a", f) + [NEWLINE] + "b"
    requires one == map[forged := g] && two == map["a" := f, "b" := g]
    ensures TreeText(c, one) == TreeText(c, two)
  {
    hide *;
    assert one.Keys == {forged} && two.Keys == {"a", "b"};
    OneInOrder(forged);
    PairInOrder();
    TextOf(c, one, [forged]);
    TextOf(c, two, ["a", "b"]);
    ForgedLines(c, f, g, one, two, forged);
  }

  lemma ForgedKeys(t: Files, p: string, g: File, i: nat)
    requires t == map[p := g] && i < |p| && p[i] == NEWLINE
    ensures |t| == 1 && !LineSafe(t)
  {
    assert p in t && t.Keys == {p};
  }

  lemma HashOfText(c: Codec, t: Files)
    ensures TreeHash(c, t) == c.digest(TreeText(c, t))
  {
  }

  lemma TextOf(c: Codec, t: Files, ps: seq<string>)
    requires SortedNames(t.Keys) == ps && forall i :: 0 <= i < |ps| ==> ps[i] in t
    ensures TreeText(c, t) == Lines(c, ps, t)
  {
  }

  lemma TwoKeys(t: Files, f: File, g: File)
    requires t == map["a" := f, "b" := g]
    ensures |t| == 2 && LineSafe(t)
  {
    assert t.Keys == {"a", "b"};
  }

  lemma ForgedLines(c: Codec, f: File, g: File, one: Files, two: Files, forged: string)
    requires forged == Row(c, "a", f) + [NEWLINE] + "b"
    requires forged in one && one[forged] == g
    requires "a" in two && "b" in two && two["a"] == f && two["b"] == g
    ensures Lines(c, [forged], one) == Lines(c, ["a", "b"], two)
  {
    var m, h := Numeral(g.mode, 8), c.digest(g.content);
    var first, rest := Row(c, "a", f), [BAR] + m + [BAR] + h;
    Prefixed("b", m, h);
    Prefixed(forged, m, h);
    OneLine(c, forged, one);
    TwoLines(c, "a", "b", two);
    assert (first + [NEWLINE] + "b" + rest) + [NEWLINE] == first + [NEWLINE] + (("b" + rest) + [NEWLINE]);
  }

  lemma OneLine(c: Codec, p: string, t: Files)
    requires p in t
    ensures Lines(c, [p], t) == Row(c, p, t[p]) + [NEWLINE]
  {
    assert [p][1..] == [];
    assert Row(c, p, t[p]) + [NEWLINE] + "" == Row(c, p, t[p]) + [NEWLINE];
  }

  lemma TwoLines(c: Codec, p: string, q: string, t: Files)
    requires p in t && q in t
    ensures Lines(c, [p, q], t) == Row(c, p, t[p]) + [NEWLINE] + (Row(c, q, t[q]) + [NEWLINE])
  {
    assert [p, q][1..] == [q];
    OneLine(c, q, t);
  }

  lemma Prefixed(p: string, m: string, h: string)
    ensures p + [BAR] + m + [BAR] + h == p + ([BAR] + m + [BAR] + h)
  {
  }

  // ---------- computing the digest ----------

  datatype Ent = Ent(rel: string, mode: nat, sum: string)

  predicate EntBefore(a: Ent, b: Ent) { Lex(a.rel, b.rel) }

  function Rels(es: seq<Ent>): (ps: seq<string>)
    ensures |ps| == |es|
  {
    if es == [] then [] else Rels(es[..|es| - 1]) + [es[|es| - 1].rel]
  }

  lemma {:induction false} RelsAt(es: seq<Ent>, i: nat)
    requires i < |es|
    ensures Rels(es)[i] == es[i].rel
  {
    if i < |es| - 1 {
      RelsAt(es[..|es| - 1], i);
    }
  }

  lemma {:induction false} InsertRels(es: seq<Ent>, e: Ent)
    ensures Rels(InsertLast(es, e, EntBefore)) == InsertLast(Rels(es), e.rel, Lex)
  {
    if es != [] {
      var n := |es| - 1;
      assert Rels(es)[n] == es[n].rel && Rels(es)[..n] == Rels(es[..n]);
      if EntBefore(e, es[n]) {
        InsertRels(es[..n], e);
        var front := InsertLast(es[..n], e, EntBefore);
        assert (front + [es[n]])[..|front|] == front;
      } else {
        assert (es + [e])[..|es|] == es;
      }
    } else {
      assert [e][..0] == [];
    }
  }

  /** Sorting entries by path sorts the paths. */
  lemma {:induction false} SortRels(es: seq<Ent>)
    ensures Rels(StableSort(es, EntBefore)) == StableSort(Rels(es), Lex)
  {
    if es != [] {
      var n := |es| - 1;
      SortRels(es[..n]);
      InsertRels(StableSort(es[..n], EntBefore), es[n]);
      assert Rels(es)[..n] == Rels(es[..n]);
    }
  }

  ghost predicate Describes(c: Codec, e: Ent, t: Files) {
    e.rel in t && e.mode == t[e.rel].mode && e.sum == c.digest(t[e.rel].content)
  }

  lemma {:induction false} LinesSnoc(c: Codec, ps: seq<string>, p: string, t: Files)
    requires forall i :: 0 <= i < |ps| ==> ps[i] in t
    requires p in t
    ensures Lines(c, ps + [p], t) == Lines(c, ps, t) + Row(c, p, t[p]) + [NEWLINE]
  {
    if ps == [] {
      assert [p][1..] == [];
      assert "" + Row(c, p, t[p]) == Row(c, p, t[p]);
      assert Row(c, p, t[p]) + [NEWLINE] + "" == Row(c, p, t[p]) + [NEWLINE];
    } else {
      LinesSnoc(c, ps[1..], p, t);
      assert (ps + [p])[1..] == ps[1..] + [p];
      var row := Row(c, ps[0], t[ps[0]]) + [NEWLINE];
      assert row + (Lines(c, ps[1..], t) + Row(c, p, t[p]) + [NEWLINE])
          == (row + Lines(c, ps[1..], t)) + Row(c, p, t[p]) + [NEWLINE];
    }
  }

  lemma EntriesInOrder(c: Codec, es: seq<Ent>, sorted: seq<Ent>, t: Files)
    requires sorted == StableSort(es, EntBefore)
    requires forall e :: e in es ==> Describes(c, e, t)
    requires multiset(Rels(es)) == multiset(t.Keys)
    ensures Rels(sorted) == SortedNames(t.Keys)
    ensures forall i :: 0 <= i < |sorted| ==> Describes(c, sorted[i], t) && sorted[i].rel == Rels(sorted)[i]
  {
    SortRels(es);
    WalkOrderIrrelevant(Rels(es), t.Keys);
    SortPermutes(es, EntBefore);
    forall i | 0 <= i < |sorted|
      ensures Describes(c, sorted[i], t) && sorted[i].rel == Rels(sorted)[i]
    {
      assert sorted[i] in sorted;
      RelsAt(sorted, i);
    }
  }

  lemma NextEntry(list: seq<Ent>, e: Ent, walk: seq<string>)
    requires |list| < |walk| && Rels(list) == walk[..|list|] && e.rel == walk[|list|]
    ensures Rels(list + [e]) == walk[..|list| + 1]
  {
    SnocParts(list, e);
    TakeNext(walk, |list|);
  }

  lemma SnocParts<T>(s: seq<T>, x: T)
    ensures (s + [x])[..|s + [x]| - 1] == s && (s + [x])[|s + [x]| - 1] == x
  {
  }

  lemma TakeNext<T>(s: seq<T>, i: nat)
    requires i < |s|
    ensures s[..i + 1] == s[..i] + [s[i]]
  {
  }

  lemma NextLine(c: Codec, ps: seq<string>, i: nat, t: Files)
    requires i < |ps| && forall j :: 0 <= j < |ps| ==> ps[j] in t
    ensures Lines(c, ps[..i + 1], t) == Lines(c, ps[..i], t) + Row(c, ps[i], t[ps[i]]) + [NEWLINE]
  {
    assert ps[..i + 1] == ps[..i] + [ps[i]];
    LinesSnoc(c, ps[..i], ps[i], t);
  }

  /** Reads each file the walk meets. */
  method CollectEntries(c: Codec, t: Files, walk: seq<string>) returns (list: seq<Ent>)
    requires multiset(walk) == multiset(t.Keys)
    ensures Rels(list) == walk
    ensures forall e :: e in list ==> Describes(c, e, t)
  {
    WalkMembers(walk, t.Keys);
    list := [];
    for i := 0 to |walk|
      invariant |list| == i && Rels(list) == walk[..i]
      invariant forall e :: e in list ==> Describes(c, e, t)
    {
      assert walk[i] in walk;
      var f := t[walk[i]];
      var e := Ent(walk[i], f.mode, c.digest(f.content));
      NextEntry(list, e, walk);
      list := list + [e];
    }
    assert walk[..|walk|] == walk;
  }

  /** Feeds the sorted entries' lines to the digest. */
  method DigestEntries(c: Codec, ents: seq<Ent>, ghost t: Files) returns (h: string)
    requires Rels(ents) == SortedNames(t.Keys)
    requires forall i :: 0 <= i < |ents| ==> Describes(c, ents[i], t) && ents[i].rel == Rels(ents)[i]
    ensures h == TreeHash(c, t)
  {
    SortedNamesMembers(t.Keys);
    hide SortedNames, Rels;
    ghost var ps := SortedNames(t.Keys);
    var top := "";
    for i := 0 to |ents|
      invariant forall j :: 0 <= j < |ps| ==> ps[j] in t
      invariant top == Lines(c, ps[..i], t)
    {
      var e := ents[i];
      NextLine(c, ps, i, t);
      assert Describes(c, e, t);
      var line := e.rel + [BAR] + Numeral(e.mode, 8) + [BAR] + e.sum;
      top := top + line + [NEWLINE];
    }
    assert ps[..|ents|] == ps;
    h := c.digest(top);
  }

  /** Reads each file the walk meets, sorts the entries by path in place, and digests their lines:
      the result is a function of the tree, not of the walk. */
  method HashTree(c: Codec, root: Tree, walk: seq<string>) returns (h: string)
    requires multiset(walk) == multiset(root.files.Keys)
    ensures h == TreeHash(c, root.files)
  {
    var list := CollectEntries(c, root.files, walk);
    var ents := new Ent[|list|](i requires 0 <= i < |list| => list[i]);
    assert ents[..] == list;
    SortInPlace(ents, EntBefore);
    EntriesInOrder(c, list, ents[..], root.files);
    h := DigestEntries(c, ents[..], root.files);
  }
}
