/** Sealing documents with digests, and what the order of their keys has to do with it. */
module Seals {
  import opened Json
  import opened Nulls
  import opened Options
  import opened Sorting
  import opened Text

  /** Canonical JSON text and the hex digest of a byte string; nothing is known of either. */
  datatype Hasher = Hasher(c14n: Value -> string, digest: string -> string)

  const ROOT: string := "merkleRoot"
  const SIGNATURE: string := "signature"

  /** `d[key] = v`. */
  function Put(fields: seq<Field>, key: string, v: Value): seq<Field> {
    if fields == [] then [Field(key, v)]
    else if fields[0].key == key then [Field(key, v)] + fields[1..]
    else [fields[0]] + Put(fields[1..], key, v)
  }

  /** `d.pop(key, None)`. */
  function Without(fields: seq<Field>, key: string): seq<Field> {
    if fields == [] then []
    else if fields[0].key == key then Without(fields[1..], key)
    else [fields[0]] + Without(fields[1..], key)
  }

  function Unsealed(fields: seq<Field>): seq<Field> { Without(Without(fields, SIGNATURE), ROOT) }

  function Joined(blobs: seq<string>): string {
    if blobs == [] then "" else Joined(blobs[..|blobs| - 1]) + blobs[|blobs| - 1]
  }

  function RootOf(fields: seq<Field>, blobs: seq<string>, h: Hasher): string {
    "sha256:" + h.digest(h.c14n(Obj(fields)) + Joined(blobs))
  }

  function SignatureOf(fields: seq<Field>, h: Hasher): string {
    "sig:dev:sha256:" + h.digest(h.c14n(Obj(fields)))
  }

  function Seal(fields: seq<Field>, blobs: seq<string>, h: Hasher): seq<Field> {
    Put(Put(fields, ROOT, Str(RootOf(Unsealed(fields), blobs, h))), SIGNATURE, Str(SignatureOf(Unsealed(fields), h)))
  }

  /** Feeds the canonical text and then each blob to a running hash. */
  method ComputeMerkleRoot(fields: seq<Field>, blobs: seq<string>, h: Hasher) returns (root: string)
    ensures root == RootOf(fields, blobs, h)
  {
    var fed := h.c14n(Obj(fields));
    for i := 0 to |blobs|
      invariant fed == h.c14n(Obj(fields)) + Joined(blobs[..i])
    {
      assert blobs[..i + 1][..i] == blobs[..i];
      Associates(h.c14n(Obj(fields)), Joined(blobs[..i]), blobs[i]);
      fed := fed + blobs[i];
    }
    assert blobs[..|blobs|] == blobs;
    return "sha256:" + h.digest(fed);
  }

  /** Stripping both seals and recomputing them gives the same two values. */
  predicate Certifies(fields: seq<Field>, blobs: seq<string>, h: Hasher) {
    && Lookup(fields, ROOT) == Some(Str(RootOf(Unsealed(fields), blobs, h)))
    && Lookup(fields, SIGNATURE) == Some(Str(SignatureOf(Unsealed(fields), h)))
  }

  lemma JoinedReads(blobs: seq<string>, last: string)
    ensures Joined([]) == "" && Joined(blobs + [last]) == Joined(blobs) + last
  {
    assert (blobs + [last])[..|blobs|] == blobs;
  }

  lemma {:induction false} WithoutSays(fields: seq<Field>, key: string)
    ensures forall f :: f in Without(fields, key) <==> f in fields && f.key != key
  {
    if fields != [] {
      WithoutSays(fields[1..], key);
      assert fields == [fields[0]] + fields[1..];
    }
  }

  /** Certification in plain terms: the two entries are the digests, under their labels, of the canonical
      text of everything else - with the blobs after it for the root. */
  lemma CertifiesReads(fields: seq<Field>, blobs: seq<string>, h: Hasher)
    ensures var text := h.c14n(Obj(Without(Without(fields, "signature"), "merkleRoot")));
            Certifies(fields, blobs, h) <==>
            && Lookup(fields, "merkleRoot") == Some(Str("sha256:" + h.digest(text + Joined(blobs))))
            && Lookup(fields, "signature") == Some(Str("sig:dev:sha256:" + h.digest(text)))
  {
  }

  /** What a seal is over: the canonical text of the unsealed fields. */
  function SealedText(fields: seq<Field>, h: Hasher): string { h.c14n(Obj(Unsealed(fields))) }

  /** Two certified documents with the same signature have the same canonical text, or show two texts with
      the same digest; so do two with the same root, with their blobs. */
  lemma SealsBind(a: seq<Field>, b: seq<Field>, blobsA: seq<string>, blobsB: seq<string>, h: Hasher)
    requires Certifies(a, blobsA, h) && Certifies(b, blobsB, h)
    ensures Lookup(a, "signature") == Lookup(b, "signature") ==>
              var s, t := SealedText(a, h), SealedText(b, h); s == t || Collides(s, t, h)
    ensures Lookup(a, "merkleRoot") == Lookup(b, "merkleRoot") ==>
              var s, t := SealedText(a, h) + Joined(blobsA), SealedText(b, h) + Joined(blobsB); s == t || Collides(s, t, h)
  {
    hide Unsealed, Joined, Lookup;
    SameTail("sha256:", h.digest(SealedText(a, h) + Joined(blobsA)), h.digest(SealedText(b, h) + Joined(blobsB)));
    SameTail("sig:dev:sha256:", h.digest(SealedText(a, h)), h.digest(SealedText(b, h)));
  }

  predicate Collides(s: string, t: string, h: Hasher) { s != t && h.digest(s) == h.digest(t) }

  lemma SameTail(p: string, s: string, t: string)
    ensures p + s == p + t ==> s == t
  {
    assert (p + s)[|p|..] == s && (p + t)[|p|..] == t;
  }

  lemma WithoutCons(f: Field, rest: seq<Field>, key: string)
    ensures Without([f] + rest, key) == if f.key == key then Without(rest, key) else [f] + Without(rest, key)
  {
    assert ([f] + rest)[1..] == rest;
  }

  lemma {:induction false} WithoutPut(fields: seq<Field>, key: string, v: Value)
    ensures Without(Put(fields, key, v), key) == Without(fields, key)
  {
    if fields == [] {
      WithoutCons(Field(key, v), [], key);
      assert [Field(key, v)] + [] == [Field(key, v)];
    } else {
      WithoutPut(fields[1..], key, v);
      WithoutCons(Field(key, v), fields[1..], key);
      WithoutCons(fields[0], Put(fields[1..], key, v), key);
    }
  }

  lemma {:induction false} WithoutCommutes(fields: seq<Field>, a: string, b: string)
    ensures Without(Without(fields, a), b) == Without(Without(fields, b), a)
  {
    if fields != [] {
      WithoutCommutes(fields[1..], a, b);
      WithoutCons(fields[0], Without(fields[1..], a), b);
      WithoutCons(fields[0], Without(fields[1..], b), a);
    }
  }

  lemma {:induction false} LookupPut(fields: seq<Field>, key: string, v: Value, other: string)
    ensures Lookup(Put(fields, key, v), other) == if other == key then Some(v) else Lookup(fields, other)
  {
    if fields == [] {
      assert [Field(key, v)][1..] == [];
    } else {
      LookupPut(fields[1..], key, v, other);
      LookupCons(Field(key, v), fields[1..], other);
      LookupCons(fields[0], Put(fields[1..], key, v), other);
    }
  }

  lemma SealsDiffer()
    ensures ROOT != SIGNATURE
  {
    assert |ROOT| != |SIGNATURE|;
  }

  /** Sealing certifies: what is stripped is what was added, whatever the fields. */
  lemma SealCertifies(fields: seq<Field>, blobs: seq<string>, h: Hasher)
    ensures Unsealed(Seal(fields, blobs, h)) == Unsealed(fields)
    ensures Certifies(Seal(fields, blobs, h), blobs, h)
    ensures forall key :: key != ROOT && key != SIGNATURE ==> Lookup(Seal(fields, blobs, h), key) == Lookup(fields, key)
  {
    hide Put, Without, Lookup;
    SealsDiffer();
    var root, sig := Str(RootOf(Unsealed(fields), blobs, h)), Str(SignatureOf(Unsealed(fields), h));
    var once := Put(fields, ROOT, root);
    WithoutPut(once, SIGNATURE, sig);
    WithoutCommutes(once, SIGNATURE, ROOT);
    WithoutPut(fields, ROOT, root);
    WithoutCommutes(fields, SIGNATURE, ROOT);
    forall key
      ensures Lookup(Seal(fields, blobs, h), key)
           == if key == SIGNATURE then Some(sig) else if key == ROOT then Some(root) else Lookup(fields, key)
    {
      LookupPut(once, SIGNATURE, sig, key);
      LookupPut(fields, ROOT, root, key);
    }
  }

  // ---------- seals and key order ----------

  predicate KeyBefore(a: Field, b: Field) { Lex(a.key, b.key) }

  /** The value with the keys of every object in order, as it is written to a file. */
  function Canonical(v: Value): Value
    decreases v
  {
    match v
    case Obj(fields) => Obj(StableSort(CanonicalFields(fields), KeyBefore))
    case Arr(items) => Arr(CanonicalItems(items))
    case _ => v
  }

  function CanonicalFields(fields: seq<Field>): (r: seq<Field>)
    decreases fields
  {
    if fields == [] then [] else [Field(fields[0].key, Canonical(fields[0].value))] + CanonicalFields(fields[1..])
  }

  function CanonicalItems(items: seq<Value>): seq<Value>
    decreases items
  {
    if items == [] then [] else [Canonical(items[0])] + CanonicalItems(items[1..])
  }

  /** Canonical text does not depend on the order of keys, at any depth. */
  ghost predicate KeyOrderFree(h: Hasher) {
    forall v, w :: Canonical(v) == Canonical(w) ==> h.c14n(v) == h.c14n(w)
  }

  lemma KeyBeforeIsOrder()
    ensures StrictWeakOrder(KeyBefore)
  {
    hide Lex;
    forall a: Field, b: Field
      ensures !(KeyBefore(a, b) && KeyBefore(b, a))
      ensures !KeyBefore(a, b) && !KeyBefore(b, a) <==> a.key == b.key
    {
      LexTrichotomy(a.key, b.key);
    }
    forall a: Field, b: Field, c: Field
      ensures KeyBefore(a, b) && KeyBefore(b, c) ==> KeyBefore(a, c)
    {
      LexTransitive(a.key, b.key, c.key);
    }
  }

  function KeyIsnt(key: string): Field -> bool { (f: Field) => f.key != key }

  lemma {:induction false} WithoutIsFilter(fields: seq<Field>, key: string)
    ensures Without(fields, key) == Filter(fields, KeyIsnt(key))
  {
    if fields != [] {
      WithoutIsFilter(fields[1..], key);
      FilterFront(fields, KeyIsnt(key));
    }
  }

  lemma {:induction false} CanonicalWithout(fields: seq<Field>, key: string)
    ensures CanonicalFields(Without(fields, key)) == Without(CanonicalFields(fields), key)
  {
    if fields != [] {
      CanonicalWithout(fields[1..], key);
      CanonicalCons(fields[0], Without(fields[1..], key));
      WithoutCons(Field(fields[0].key, Canonical(fields[0].value)), CanonicalFields(fields[1..]), key);
    }
  }

  lemma CanonicalCons(f: Field, rest: seq<Field>)
    ensures CanonicalFields([f] + rest) == [Field(f.key, Canonical(f.value))] + CanonicalFields(rest)
  {
    assert ([f] + rest)[1..] == rest;
  }

  /** Removing a key and putting the rest in order is putting it in order and removing the key. */
  lemma SortedWithoutKey(fields: seq<Field>, key: string)
    ensures StableSort(Without(fields, key), KeyBefore) == Without(StableSort(fields, KeyBefore), key)
  {
    hide *;
    KeyBeforeIsOrder();
    SortFilter(fields, KeyBefore, KeyIsnt(key));
    WithoutIsFilter(fields, key);
    WithoutIsFilter(StableSort(fields, KeyBefore), key);
  }

  function SortedFields(fields: seq<Field>): seq<Field> { StableSort(CanonicalFields(fields), KeyBefore) }

  lemma SortedFieldsWithout(fields: seq<Field>, key: string)
    ensures SortedFields(Without(fields, key)) == Without(SortedFields(fields), key)
  {
    hide StableSort, CanonicalFields, Without;
    CanonicalWithout(fields, key);
    SortedWithoutKey(CanonicalFields(fields), key);
  }

  lemma {:induction false} LookupAppend(a: seq<Field>, b: seq<Field>, key: string)
    ensures Lookup(a + b, key) == if Lookup(a, key).Some? then Lookup(a, key) else Lookup(b, key)
  {
    if a == [] {
      assert a + b == b;
    } else {
      LookupAppend(a[1..], b, key);
      assert (a + b)[1..] == a[1..] + b;
    }
  }

  lemma LookupOne(f: Field, key: string)
    ensures Lookup([f], key) == if f.key == key then Some(f.value) else None
  {
    assert [f][1..] == [];
  }

  /** Insertion never moves a field past one with its key. */
  lemma {:induction false} LookupInserted(fields: seq<Field>, f: Field, key: string)
    ensures Lookup(InsertLast(fields, f, KeyBefore), key) == Lookup(fields + [f], key)
  {
    hide Lookup, Lex;
    LookupAppend(fields, [f], key);
    LookupOne(f, key);
    if fields != [] {
      var front, last := fields[..|fields| - 1], fields[|fields| - 1];
      assert fields == front + [last];
      LookupAppend(front, [last], key);
      LookupOne(last, key);
      if KeyBefore(f, last) {
        LexTrichotomy(f.key, last.key);
        LookupInserted(front, f, key);
        LookupAppend(front, [f], key);
        LookupAppend(InsertLast(front, f, KeyBefore), [last], key);
      }
    } else {
      assert fields + [f] == [f];
    }
  }

  lemma {:induction false} LookupSorted(fields: seq<Field>, key: string)
    ensures Lookup(StableSort(fields, KeyBefore), key) == Lookup(fields, key)
  {
    hide Lookup, InsertLast;
    if fields != [] {
      var front, last := fields[..|fields| - 1], fields[|fields| - 1];
      assert fields == front + [last];
      LookupSorted(front, key);
      LookupInserted(StableSort(front, KeyBefore), last, key);
      LookupAppend(StableSort(front, KeyBefore), [last], key);
      LookupAppend(front, [last], key);
    }
  }

  lemma {:induction false} LookupCanonical(fields: seq<Field>, key: string)
    ensures var found := Lookup(fields, key);
            Lookup(CanonicalFields(fields), key) == if found.None? then None else Some(Canonical(found.value))
  {
    if fields != [] {
      LookupCanonical(fields[1..], key);
      LookupCons(Field(fields[0].key, Canonical(fields[0].value)), CanonicalFields(fields[1..]), key);
    }
  }

  lemma TextStays(v: Value, s: string)
    ensures Canonical(v) == Str(s) <==> v == Str(s)
  {
  }

  /** Two documents that differ in the order of keys alone look the same text up under any key. */
  lemma SameLookup(a: seq<Field>, b: seq<Field>, key: string, s: string)
    requires SortedFields(a) == SortedFields(b) && Lookup(a, key) == Some(Str(s))
    ensures Lookup(b, key) == Some(Str(s))
  {
    hide Lookup, StableSort, CanonicalFields, Canonical;
    LookupCanonical(a, key);
    LookupCanonical(b, key);
    LookupSorted(CanonicalFields(a), key);
    LookupSorted(CanonicalFields(b), key);
    TextStays(Str(s), s);
    if Lookup(b, key).Some? {
      TextStays(Lookup(b, key).value, s);
    }
  }

  lemma SameUnsealed(a: seq<Field>, b: seq<Field>)
    requires SortedFields(a) == SortedFields(b)
    ensures SortedFields(Unsealed(a)) == SortedFields(Unsealed(b))
  {
    hide SortedFields, Without;
    SortedFieldsWithout(a, SIGNATURE);
    SortedFieldsWithout(b, SIGNATURE);
    SortedFieldsWithout(Without(a, SIGNATURE), ROOT);
    SortedFieldsWithout(Without(b, SIGNATURE), ROOT);
  }

  lemma CanonicalObject(fields: seq<Field>)
    ensures Canonical(Obj(fields)) == Obj(SortedFields(fields))
  {
  }

  /** Certification survives any reordering of keys, at any depth, such as writing a document to a file
      with its keys sorted and reading it back. */
  lemma ReorderedCertifies(a: seq<Field>, b: seq<Field>, blobs: seq<string>, h: Hasher)
    requires KeyOrderFree(h) && Certifies(a, blobs, h)
    requires Canonical(Obj(a)) == Canonical(Obj(b))
    ensures Certifies(b, blobs, h)
  {
    hide SortedFields, Unsealed, Lookup, Canonical;
    CanonicalObject(a);
    CanonicalObject(b);
    SameUnsealed(a, b);
    CanonicalObject(Unsealed(a));
    CanonicalObject(Unsealed(b));
    assert h.c14n(Obj(Unsealed(a))) == h.c14n(Obj(Unsealed(b)));
    SameLookup(a, b, ROOT, RootOf(Unsealed(a), blobs, h));
    SameLookup(a, b, SIGNATURE, SignatureOf(Unsealed(a), h));
  }

  lemma {:induction false} CanonicalConcat(a: seq<Field>, b: seq<Field>)
    ensures CanonicalFields(a + b) == CanonicalFields(a) + CanonicalFields(b)
  {
    hide Canonical, CanonicalFields;
    if a == [] {
      assert a + b == b;
      NoCanonicalFields();
    } else {
      CanonicalConcat(a[1..], b);
      assert a == [a[0]] + a[1..] && a + b == [a[0]] + (a[1..] + b);
      CanonicalCons(a[0], a[1..]);
      CanonicalCons(a[0], a[1..] + b);
      Associates([Field(a[0].key, Canonical(a[0].value))], CanonicalFields(a[1..]), CanonicalFields(b));
    }
  }

  lemma CanonicalOne(f: Field)
    ensures CanonicalFields([f]) == [Field(f.key, Canonical(f.value))]
  {
    CanonicalCons(f, []);
    assert [f] + [] == [f];
  }

  lemma {:induction false} InsertCanonical(fields: seq<Field>, f: Field)
    ensures CanonicalFields(InsertLast(fields, f, KeyBefore))
         == InsertLast(CanonicalFields(fields), Field(f.key, Canonical(f.value)), KeyBefore)
  {
    hide Canonical, CanonicalFields, Lex, InsertLast;
    CanonicalOne(f);
    if fields != [] {
      var front, last := fields[..|fields| - 1], fields[|fields| - 1];
      assert fields == front + [last];
      CanonicalConcat(front, [last]);
      CanonicalOne(last);
      InsertAtEnd(front, last, f);
      InsertAtEnd(CanonicalFields(front), Field(last.key, Canonical(last.value)), Field(f.key, Canonical(f.value)));
      if KeyBefore(f, last) {
        InsertCanonical(front, f);
        CanonicalConcat(InsertLast(front, f, KeyBefore), [last]);
      } else {
        CanonicalConcat(fields, [f]);
      }
    } else {
      NoCanonicalFields();
      InsertFirst(f);
      InsertFirst(Field(f.key, Canonical(f.value)));
    }
  }

  lemma InsertAtEnd(front: seq<Field>, last: Field, f: Field)
    ensures InsertLast(front + [last], f, KeyBefore)
         == if KeyBefore(f, last) then InsertLast(front, f, KeyBefore) + [last] else front + [last] + [f]
  {
    assert (front + [last])[..|front|] == front;
  }

  lemma InsertFirst(f: Field)
    ensures InsertLast([], f, KeyBefore) == [f]
  {
  }

  lemma NoCanonicalFields()
    ensures CanonicalFields([]) == []
  {
  }

  lemma {:induction false} SortCanonical(fields: seq<Field>)
    ensures CanonicalFields(StableSort(fields, KeyBefore)) == StableSort(CanonicalFields(fields), KeyBefore)
  {
    hide Canonical, CanonicalFields, InsertLast;
    NoCanonicalFields();
    if fields != [] {
      var front, last := fields[..|fields| - 1], fields[|fields| - 1];
      assert fields == front + [last];
      SortCanonical(front);
      InsertCanonical(StableSort(front, KeyBefore), last);
      CanonicalConcat(front, [last]);
      CanonicalOne(last);
    }
  }

  lemma SortTwice(fields: seq<Field>)
    ensures StableSort(StableSort(fields, KeyBefore), KeyBefore) == StableSort(fields, KeyBefore)
  {
    hide *;
    KeyBeforeIsOrder();
    SortOrdered(fields, KeyBefore);
    SortFixesOrdered(StableSort(fields, KeyBefore), KeyBefore);
  }

  /** Putting keys in order twice is putting them in order once. */
  lemma {:induction false} CanonicalTwice(v: Value)
    ensures Canonical(Canonical(v)) == Canonical(v)
    decreases v
  {
    match v {
      case Obj(fields) =>
        CanonicalFieldsTwice(fields);
        SortCanonical(CanonicalFields(fields));
        SortTwice(CanonicalFields(fields));
      case Arr(items) => CanonicalItemsTwice(items);
      case _ =>
    }
  }

  lemma {:induction false} CanonicalFieldsTwice(fields: seq<Field>)
    ensures CanonicalFields(CanonicalFields(fields)) == CanonicalFields(fields)
    decreases fields
  {
    if fields != [] {
      CanonicalTwice(fields[0].value);
      CanonicalFieldsTwice(fields[1..]);
      CanonicalCons(Field(fields[0].key, Canonical(fields[0].value)), CanonicalFields(fields[1..]));
    }
  }

  lemma {:induction false} CanonicalItemsTwice(items: seq<Value>)
    ensures CanonicalItems(CanonicalItems(items)) == CanonicalItems(items)
    decreases items
  {
    if items != [] {
      CanonicalTwice(items[0]);
      CanonicalItemsTwice(items[1..]);
      assert ([Canonical(items[0])] + CanonicalItems(items[1..]))[1..] == CanonicalItems(items[1..]);
    }
  }

  /** So a certified document written with its keys sorted certifies as it stands in the file. */
  lemma WrittenCertifies(fields: seq<Field>, blobs: seq<string>, h: Hasher)
    requires KeyOrderFree(h) && Certifies(fields, blobs, h)
    ensures Certifies(SortedFields(fields), blobs, h)
  {
    hide SortedFields, Certifies, KeyOrderFree;
    CanonicalObject(fields);
    CanonicalTwice(Obj(fields));
    ReorderedCertifies(fields, SortedFields(fields), blobs, h);
  }
}
