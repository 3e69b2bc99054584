/** `drop_nulls`, as the surface emitters apply it before hashing. */
module Nulls {
  import opened Json
  import opened Options

  /** `drop_nulls`: object fields and list items that are null go, at every depth. */
  function DropNulls(v: Value): (r: Value)
    ensures r.Null? <==> v.Null?
    decreases v
  {
    match v
    case Obj(fields) => Obj(DropFields(fields))
    case Arr(items) => Arr(DropItems(items))
    case _ => v
  }

  function DropFields(fields: seq<Field>): seq<Field>
    decreases fields
  {
    if fields == [] then []
    else
      var f, rest := fields[0], DropFields(fields[1..]);
      if f.value.Null? || DropNulls(f.value).Null? then rest else [Field(f.key, DropNulls(f.value))] + rest
  }

  function DropItems(items: seq<Value>): seq<Value>
    decreases items
  {
    if items == [] then []
    else if items[0].Null? then DropItems(items[1..])
    else [DropNulls(items[0])] + DropItems(items[1..])
  }

  /** A step from a container to something in it. */
  datatype Step = Key(key: string) | Item

  /** What sits at one place of a value: a container, or a leaf with its value. */
  datatype Node = ObjNode | ArrNode | LeafNode(leaf: Value)

  /** A place and what sits there. */
  datatype Part = Part(path: seq<Step>, node: Node)

  function NodeOf(v: Value): Node {
    match v
    case Obj(_) => ObjNode
    case Arr(_) => ArrNode
    case _ => LeafNode(v)
  }

  /** Every part of a value reached by `path`, containers before their contents. */
  function Parts(v: Value, path: seq<Step>): seq<Part>
    decreases v
  {
    [Part(path, NodeOf(v))]
    + match v
      case Obj(fields) => FieldParts(fields, path)
      case Arr(items) => ItemParts(items, path)
      case _ => []
  }

  function FieldParts(fields: seq<Field>, path: seq<Step>): seq<Part>
    decreases fields
  {
    if fields == [] then []
    else Parts(fields[0].value, path + [Key(fields[0].key)]) + FieldParts(fields[1..], path)
  }

  function ItemParts(items: seq<Value>, path: seq<Step>): seq<Part>
    decreases items
  {
    if items == [] then [] else Parts(items[0], path + [Item]) + ItemParts(items[1..], path)
  }

  predicate IsNull(p: Part) { p.node == LeafNode(Null) }

  /** The parts that are not null, in order. */
  function NonNull(ps: seq<Part>): seq<Part> {
    if ps == [] then []
    else if IsNull(ps[0]) then NonNull(ps[1..])
    else [ps[0]] + NonNull(ps[1..])
  }

  lemma {:induction false} NonNullConcat(a: seq<Part>, b: seq<Part>)
    ensures NonNull(a + b) == NonNull(a) + NonNull(b)
  {
    if a == [] {
      assert a + b == b;
    } else {
      NonNullConcat(a[1..], b);
      assert (a + b)[1..] == a[1..] + b;
    }
  }

  lemma NonNullCons(p: Part, ps: seq<Part>)
    ensures NonNull([p] + ps) == if IsNull(p) then NonNull(ps) else [p] + NonNull(ps)
  {
    assert ([p] + ps)[1..] == ps;
  }

  /** Exactly the nulls go: whatever else a value holds, at any depth, stays where it was and in order. */
  lemma {:induction false} DropsExactlyNulls(v: Value, path: seq<Step>)
    requires !v.Null?
    ensures Parts(DropNulls(v), path) == NonNull(Parts(v, path))
    decreases v
  {
    var head := Part(path, NodeOf(v));
    assert NonNull([]) == [];
    match v {
      case Obj(fields) =>
        DropsFieldNulls(fields, path);
        NonNullCons(head, FieldParts(fields, path));
      case Arr(items) =>
        DropsItemNulls(items, path);
        NonNullCons(head, ItemParts(items, path));
      case _ =>
        NonNullCons(head, []);
    }
  }

  lemma {:induction false} DropsFieldNulls(fields: seq<Field>, path: seq<Step>)
    ensures FieldParts(DropFields(fields), path) == NonNull(FieldParts(fields, path))
    decreases fields
  {
    if fields != [] {
      var f, at := fields[0], path + [Key(fields[0].key)];
      DropsFieldNulls(fields[1..], path);
      NonNullConcat(Parts(f.value, at), FieldParts(fields[1..], path));
      if f.value.Null? {
        NonNullCons(Part(at, LeafNode(Null)), []);
        assert NonNull([]) == [];
      } else {
        DropsExactlyNulls(f.value, at);
        FieldPartsCons(Field(f.key, DropNulls(f.value)), DropFields(fields[1..]), path);
      }
    }
  }

  lemma FieldPartsCons(f: Field, rest: seq<Field>, path: seq<Step>)
    ensures FieldParts([f] + rest, path) == Parts(f.value, path + [Key(f.key)]) + FieldParts(rest, path)
  {
    assert ([f] + rest)[1..] == rest;
  }

  lemma {:induction false} DropsItemNulls(items: seq<Value>, path: seq<Step>)
    ensures ItemParts(DropItems(items), path) == NonNull(ItemParts(items, path))
    decreases items
  {
    if items != [] {
      var v, at := items[0], path + [Item];
      DropsItemNulls(items[1..], path);
      NonNullConcat(Parts(v, at), ItemParts(items[1..], path));
      if v.Null? {
        NonNullCons(Part(at, LeafNode(Null)), []);
        assert NonNull([]) == [];
      } else {
        DropsExactlyNulls(v, at);
        ItemPartsCons(DropNulls(v), DropItems(items[1..]), path);
      }
    }
  }

  lemma ItemPartsCons(v: Value, rest: seq<Value>, path: seq<Step>)
    ensures ItemParts([v] + rest, path) == Parts(v, path + [Item]) + ItemParts(rest, path)
  {
    assert ([v] + rest)[1..] == rest;
  }

  /** No null at any depth. */
  predicate NullFree(v: Value)
    decreases v
  {
    match v
    case Null => false
    case Obj(fields) => forall i :: 0 <= i < |fields| ==> NullFree(fields[i].value)
    case Arr(items) => forall i :: 0 <= i < |items| ==> NullFree(items[i])
    case _ => true
  }

  lemma NullFreeFields(f: Field, rest: seq<Field>)
    ensures NullFree(Obj([f] + rest)) <==> NullFree(f.value) && NullFree(Obj(rest))
  {
    var all := [f] + rest;
    assert all[0] == f && forall i :: 0 <= i < |rest| ==> rest[i] == all[i + 1];
    if NullFree(Obj(all)) {
      forall i | 0 <= i < |rest|
        ensures NullFree(rest[i].value)
      {
        assert NullFree(all[i + 1].value);
      }
    }
  }

  lemma NullFreeItems(v: Value, rest: seq<Value>)
    ensures NullFree(Arr([v] + rest)) <==> NullFree(v) && NullFree(Arr(rest))
  {
    var all := [v] + rest;
    assert all[0] == v && forall i :: 0 <= i < |rest| ==> rest[i] == all[i + 1];
    if NullFree(Arr(all)) {
      forall i | 0 <= i < |rest|
        ensures NullFree(rest[i])
      {
        assert NullFree(all[i + 1]);
      }
    }
  }

  /** A value is left alone exactly when it is free of nulls (or is itself one). */
  lemma {:induction false} DropNullsFixes(v: Value)
    ensures !v.Null? ==> NullFree(DropNulls(v))
    ensures NullFree(v) ==> DropNulls(v) == v
    decreases v
  {
    match v {
      case Obj(fields) => DropFieldsFixes(fields);
      case Arr(items) => DropItemsFixes(items);
      case _ =>
    }
  }

  lemma {:induction false} DropFieldsFixes(fields: seq<Field>)
    ensures NullFree(Obj(DropFields(fields)))
    ensures NullFree(Obj(fields)) ==> DropFields(fields) == fields
    decreases fields
  {
    if fields != [] {
      DropNullsFixes(fields[0].value);
      DropFieldsFixes(fields[1..]);
      var f := fields[0];
      assert fields == [f] + fields[1..];
      NullFreeFields(f, fields[1..]);
      NullFreeFields(Field(f.key, DropNulls(f.value)), DropFields(fields[1..]));
    }
  }

  lemma {:induction false} DropItemsFixes(items: seq<Value>)
    ensures NullFree(Arr(DropItems(items)))
    ensures NullFree(Arr(items)) ==> DropItems(items) == items
    decreases items
  {
    if items != [] {
      DropNullsFixes(items[0]);
      DropItemsFixes(items[1..]);
      assert items == [items[0]] + items[1..];
      NullFreeItems(items[0], items[1..]);
      NullFreeItems(DropNulls(items[0]), DropItems(items[1..]));
    }
  }

  lemma DropNullsIdempotent(v: Value)
    ensures DropNulls(DropNulls(v)) == DropNulls(v)
    ensures !v.Null? ==> (DropNulls(v) == v <==> NullFree(v))
  {
    DropNullsFixes(v);
    DropNullsFixes(DropNulls(v));
  }

  /** An entry that is not null is found again, itself rid of nulls; an absent one stays absent. */
  lemma {:induction false} LookupDropped(fields: seq<Field>, key: string)
    ensures Lookup(fields, key).None? ==> Lookup(DropFields(fields), key).None?
    ensures Lookup(fields, key).Some? && !Lookup(fields, key).value.Null? ==>
              Lookup(DropFields(fields), key) == Some(DropNulls(Lookup(fields, key).value))
  {
    if fields != [] {
      var f, rest := fields[0], DropFields(fields[1..]);
      LookupDropped(fields[1..], key);
      LookupCons(Field(f.key, DropNulls(f.value)), rest, key);
      LookupCons(f, fields[1..], key);
      assert fields == [f] + fields[1..];
    }
  }

  lemma LookupCons(f: Field, rest: seq<Field>, key: string)
    ensures Lookup([f] + rest, key) == if f.key == key then Some(f.value) else Lookup(rest, key)
  {
    assert ([f] + rest)[1..] == rest;
  }
}
