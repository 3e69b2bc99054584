/** Moving a frozen version between nodes as a stream of entries. */
module Replicate {
  import opened Codecs
  import opened Names
  import opened Snapshots
  import opened Sorting
  import opened Trees

  /** A tar entry: the header's name and mode, and the bytes. */
  datatype Entry = Entry(name: string, mode: nat, content: string)

  /** What arrives: entries, then end of file or a read error. */
  datatype Stream = Stream(entries: seq<Entry>, broken: bool)

  function EntryOf(p: string, t: Files): Entry
    requires p in t
  {
    Entry(p, t[p].mode, t[p].content)
  }

  function Sent(t: Files, walk: seq<string>): (es: seq<Entry>)
    requires forall i :: 0 <= i < |walk| ==> walk[i] in t
    ensures |es| == |walk|
  {
    if walk == [] then [] else Sent(t, walk[..|walk| - 1]) + [EntryOf(walk[|walk| - 1], t)]
  }

  /** A created file is read-only whatever mode the header carries; an existing one keeps its mode. */
  function Written(t: Files, e: Entry): Files {
    t[e.name := File(if e.name in t then t[e.name].mode else READ_ONLY, e.content)]
  }

  function Received(t: Files, es: seq<Entry>): Files {
    if es == [] then t else Written(Received(t, es[..|es| - 1]), es[|es| - 1])
  }

  /** Streams the frozen tree in walk order. */
  method Send(t: Files, walk: seq<string>) returns (es: seq<Entry>)
    requires multiset(walk) == multiset(t.Keys)
    ensures forall i :: 0 <= i < |walk| ==> walk[i] in t
    ensures es == Sent(t, walk)
  {
    WalkMembers(walk, t.Keys);
    es := [];
    for i := 0 to |walk|
      invariant forall j :: 0 <= j < |walk| ==> walk[j] in t
      invariant es == Sent(t, walk[..i])
    {
      assert walk[..i + 1][..i] == walk[..i];
      es := es + [Entry(walk[i], t[walk[i]].mode, t[walk[i]].content)];
    }
    assert walk[..|walk|] == walk;
  }

  /** Writes entries until the stream ends; a broken stream is an error after what came before it. */
  method Receive(s: Stream, dst: Tree) returns (ok: bool)
    modifies dst
    ensures ok == !s.broken
    ensures dst.files == Received(old(dst.files), s.entries)
  {
    ghost var start := dst.files;
    for i := 0 to |s.entries|
      invariant dst.files == Received(start, s.entries[..i])
    {
      var e := s.entries[i];
      assert s.entries[..i + 1][..i] == s.entries[..i];
      var mode := if e.name in dst.files then dst.files[e.name].mode else READ_ONLY;
      dst.files := dst.files[e.name := File(mode, e.content)];
    }
    assert s.entries[..|s.entries|] == s.entries;
    return !s.broken;
  }

  /** Any prefix of what was sent reproduces exactly the files it names, read-only. */
  lemma {:induction false} PrefixReceived(t: Files, walk: seq<string>, n: nat)
    requires n <= |walk| && forall i :: 0 <= i < |walk| ==> walk[i] in t
    ensures Received(map[], Sent(t, walk)[..n]) == map p | p in walk[..n] :: Freeze(t)[p]
  {
    var es := Sent(t, walk);
    if n > 0 {
      PrefixReceived(t, walk, n - 1);
      SentAt(t, walk, n - 1);
      assert es[..n][..n - 1] == es[..n - 1];
      assert walk[..n] == walk[..n - 1] + [walk[n - 1]];
      assert Received(map[], es[..n]) == Written(Received(map[], es[..n - 1]), es[n - 1]);
    }
  }

  lemma {:induction false} SentAt(t: Files, walk: seq<string>, i: nat)
    requires i < |walk| && forall j :: 0 <= j < |walk| ==> walk[j] in t
    ensures Sent(t, walk)[i] == Entry(walk[i], t[walk[i]].mode, t[walk[i]].content)
  {
    if i < |walk| - 1 {
      SentAt(t, walk[..|walk| - 1], i);
    }
  }

  /** Received over a directory that is not empty, the files sent have their contents, new ones at mode 0o444
      and those already there at their own; the others are untouched. */
  lemma {:induction false} ReceivedOver(dst: Files, t: Files, walk: seq<string>)
    requires forall i :: 0 <= i < |walk| ==> walk[i] in t
    ensures var r := Received(dst, Sent(t, walk));
            && (forall p :: p in r <==> p in dst || p in walk)
            && (forall p :: p in walk ==> p in t && r[p] == File(if p in dst then dst[p].mode else 292, t[p].content))
            && (forall p :: p in dst && p !in walk ==> r[p] == dst[p])
  {
    var n := |walk| - 1;
    if walk != [] {
      ReceivedOver(dst, t, walk[..n]);
      SentAt(t, walk, n);
      assert Sent(t, walk)[..n] == Sent(t, walk[..n]);
      assert walk == walk[..n] + [walk[n]];
    }
  }

  /** Sending a tree in any order and receiving it into an empty directory reproduces every path and
      content at mode 0o444: a frozen tree comes back identical, with the same tree digest. */
  lemma RoundTrip(c: Codec, t: Files, walk: seq<string>)
    requires multiset(walk) == multiset(t.Keys)
    ensures (forall i :: 0 <= i < |walk| ==> walk[i] in t)
         && Received(map[], Sent(t, walk)) == Freeze(t)
    ensures Freeze(Freeze(t)) == Freeze(t)
    ensures t == Freeze(t) ==> Received(map[], Sent(t, walk)) == t
  {
    WalkMembers(walk, t.Keys);
    hide Sent, Received, Freeze;
    PrefixReceived(t, walk, |walk|);
    TakeDrop(Sent(t, walk), |walk|);
    TakeDrop(walk, |walk|);
    assert Sent(t, walk)[..|walk|] == Sent(t, walk) && walk[..|walk|] == walk;
    FreezeFacts(t);
    assert (map p | p in walk :: Freeze(t)[p]) == Freeze(t);
  }

  lemma FreezeFacts(t: Files)
    ensures Freeze(t).Keys == t.Keys && Freeze(Freeze(t)) == Freeze(t)
  {
  }

  /** A replica's tree digest is the version's id exactly when every file of the working tree was
      already mode 0o444: the id was taken before the modes were dropped. */
  lemma ReplicaHashIsId(c: Codec, t: Files)
    requires WellFormed(c) && LineSafe(t) && !TreeCollision(c, Freeze(t), t)
    ensures TreeHash(c, Freeze(t)) == TreeHash(c, t) <==> forall p :: p in t ==> t[p].mode == READ_ONLY
  {
    if forall p :: p in t ==> t[p].mode == READ_ONLY {
      assert Freeze(t) == t;
    }
    if TreeHash(c, Freeze(t)) == TreeHash(c, t) {
      TreeHashDetermines(c, Freeze(t), t);
      forall p | p in t
        ensures t[p].mode == READ_ONLY
      {
        assert t[p] == Freeze(t)[p];
      }
    }
  }
}
