/** Sets of strings laid out in lexicographic order, as Go's and Python's sorts lay them out. */
module Names {
  import opened Sorting
  import opened Text

  lemma LexOrder()
    ensures StrictWeakOrder(Lex)
  {
    forall a, b
      ensures !(Lex(a, b) && Lex(b, a))
      ensures !Lex(a, b) && !Lex(b, a) <==> a == b
    {
      LexTrichotomy(a, b);
    }
    forall a, b, c
      ensures Lex(a, b) && Lex(b, c) ==> Lex(a, c)
    {
      LexTransitive(a, b, c);
    }
  }

  /** The elements of `s` in some order. */
  ghost function SomeOrder(s: set<string>): (r: seq<string>)
    ensures multiset(r) == multiset(s)
  {
    if s == {} then []
    else
      var x :| x in s;
      var rest := SomeOrder(s - {x});
      assert multiset(s) == multiset(s - {x}) + multiset{x};
      rest + [x]
  }

  /** The elements of `s` in lexicographic order. */
  ghost function SortedNames(s: set<string>): seq<string> {
    StableSort(SomeOrder(s), Lex)
  }

  lemma LexTiesAreEqual(s: seq<string>)
    ensures TiesAreEqual(s, Lex)
  {
    forall i, j | 0 <= i < |s| && 0 <= j < |s| && !Lex(s[i], s[j]) && !Lex(s[j], s[i])
      ensures s[i] == s[j]
    {
      LexTrichotomy(s[i], s[j]);
    }
  }

  /** Whatever order a walk visits the paths in, sorting gives the same sequence. */
  lemma WalkOrderIrrelevant(walk: seq<string>, s: set<string>)
    requires multiset(walk) == multiset(s)
    ensures StableSort(walk, Lex) == SortedNames(s)
  {
    LexOrder();
    var a, b := StableSort(walk, Lex), SortedNames(s);
    SortOrdered(walk, Lex);
    SortOrdered(SomeOrder(s), Lex);
    SortPermutes(walk, Lex);
    SortPermutes(SomeOrder(s), Lex);
    LexTiesAreEqual(a);
    OrderedUnique(a, b, Lex);
  }

  lemma SortedNamesMembers(s: set<string>)
    ensures multiset(SortedNames(s)) == multiset(s)
    ensures forall p :: p in SortedNames(s) <==> p in s
  {
    SortPermutes(SomeOrder(s), Lex);
    forall p
      ensures p in SortedNames(s) <==> p in s
    {
      assert p in SortedNames(s) <==> p in multiset(SortedNames(s));
    }
  }

  lemma WalkMembers(walk: seq<string>, s: set<string>)
    requires multiset(walk) == multiset(s)
    ensures forall p :: p in walk <==> p in s
  {
    forall p
      ensures p in walk <==> p in s
    {
      assert p in walk <==> p in multiset(walk);
    }
  }
}
