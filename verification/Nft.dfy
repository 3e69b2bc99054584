/** The kernel side of the egress gate: applying, listing and verifying the three allow sets. */
module Nft {
  import opened GateStore
  import opened Json
  import opened Options
  import opened Sorting
  import opened Text

  datatype SetName = AllowV4 | TcpPorts | UdpPorts

  /** The baseline objects and the elements of the three sets. */
  datatype Kernel = Kernel(table: bool, sets: set<SetName>, chain: bool, elems: Sets)

  predicate Baseline(k: Kernel) { k.table && {AllowV4, TcpPorts, UdpPorts} <= k.sets && k.chain }

  datatype Error = ProgramMissing | BaselineMissing | RootRequired | NftFailed | NotANumber

  datatype Command = Flush(name: SetName) | Add(name: SetName, texts: set<string>)

  function Elements(s: Sets, name: SetName): set<string> {
    match name
    case AllowV4 => s.addrs
    case TcpPorts => s.tcp
    case UdpPorts => s.udp
  }

  function WithElements(s: Sets, name: SetName, texts: set<string>): Sets {
    match name
    case AllowV4 => s.(addrs := texts)
    case TcpPorts => s.(tcp := texts)
    case UdpPorts => s.(udp := texts)
  }

  function Execute(s: Sets, c: Command): Sets {
    match c
    case Flush(name) => WithElements(s, name, {})
    case Add(name, texts) => WithElements(s, name, Elements(s, name) + texts)
  }

  /** A script runs as one transaction. */
  function RunScript(s: Sets, cs: seq<Command>): Sets {
    if cs == [] then s else Execute(RunScript(s, cs[..|cs| - 1]), cs[|cs| - 1])
  }

  // ---------- applying ----------

  function NormalAddrs(xs: set<string>): set<string> { set x | x in xs && !Blank(x) :: DropSlash32(x) }

  predicate AllNumbers(ps: set<string>) { forall p :: p in ps && !Blank(p) ==> IntText(p).Some? }

  function NormalPorts(ps: set<string>): set<string>
    requires AllNumbers(ps)
  {
    set p | p in ps && !Blank(p) :: Decimal(IntText(p).value)
  }

  datatype Applied = Applied(kernel: Kernel, err: Option<Error>)

  /** Whether the nft program can be run, who runs the gate, and whether the kernel accepts the script. */
  datatype Env = Env(program: bool, root: bool, accepts: bool)

  function ApplyStep(k: Kernel, want: Sets, env: Env): Applied {
    if !env.root then Applied(k, Some(RootRequired))
    else if !env.program then Applied(k, Some(ProgramMissing))
    else if !Baseline(k) then Applied(k, Some(BaselineMissing))
    else if !AllNumbers(want.tcp) || !AllNumbers(want.udp) then Applied(k, Some(NotANumber))
    else if !env.accepts then Applied(k, Some(NftFailed))
    else Applied(k.(elems := Sets(NormalAddrs(want.addrs), NormalPorts(want.tcp), NormalPorts(want.udp))), None)
  }

  lemma ScriptSnoc(s: Sets, cs: seq<Command>, c: Command)
    ensures RunScript(s, cs + [c]) == Execute(RunScript(s, cs), c)
  {
    assert (cs + [c])[..|cs|] == cs;
  }

  class KernelSets {
    var state: Kernel

    constructor (state: Kernel)
      ensures this.state == state
    {
      this.state := state;
    }

    /** Flushes the three sets and adds what is wanted, all in one script. */
    method ApplySets(want: Sets, env: Env) returns (err: Option<Error>)
      modifies this
      ensures Applied(state, err) == ApplyStep(old(state), want, env)
    {
      if !env.root {
        return Some(RootRequired);
      }
      if !env.program {
        return Some(ProgramMissing);
      }
      if !Baseline(state) {
        return Some(BaselineMissing);
      }
      if !AllNumbers(want.tcp) || !AllNumbers(want.udp) {
        return Some(NotANumber);
      }
      var a, t, u := NormalAddrs(want.addrs), NormalPorts(want.tcp), NormalPorts(want.udp);
      var lines := Script(a, t, u, state.elems);
      if !env.accepts {
        return Some(NftFailed);
      }
      state := state.(elems := RunScript(state.elems, lines));
      return None;
    }
  }

  /** Three flushes, then an add for each set that is to hold anything. */
  method Script(a: set<string>, t: set<string>, u: set<string>, ghost start: Sets) returns (lines: seq<Command>)
    ensures RunScript(start, lines) == Sets(a, t, u)
  {
    hide RunScript;
    lines := [Flush(AllowV4), Flush(TcpPorts), Flush(UdpPorts)];
    FlushedAll(start);
    if a != {} {
      ScriptSnoc(start, lines, Add(AllowV4, a));
      lines := lines + [Add(AllowV4, a)];
    }
    if t != {} {
      ScriptSnoc(start, lines, Add(TcpPorts, t));
      lines := lines + [Add(TcpPorts, t)];
    }
    if u != {} {
      ScriptSnoc(start, lines, Add(UdpPorts, u));
      lines := lines + [Add(UdpPorts, u)];
    }
  }

  lemma FlushedAll(s: Sets)
    ensures RunScript(s, [Flush(AllowV4), Flush(TcpPorts), Flush(UdpPorts)]) == Sets({}, {}, {})
  {
    var a: seq<Command>, b, c := [], Flush(AllowV4), Flush(TcpPorts);
    ScriptSnoc(s, [], b);
    ScriptSnoc(s, [b], c);
    ScriptSnoc(s, [b, c], Flush(UdpPorts));
    assert a + [b] == [b] && [b] + [c] == [b, c] && [b, c] + [Flush(UdpPorts)] == [b, c, Flush(UdpPorts)];
  }

  // ---------- the JSON listing ----------

  /** An element's value once its `val` wrapper, if any, is taken off. */
  function Unwrapped(v: Value): Value {
    if v.Obj? && Lookup(v.fields, "val").Some? then Lookup(v.fields, "val").value else v
  }

  function TextOf(v: Value, pr: Printer): seq<string> {
    if v.Null? then [] else [StrOf(v, pr)]
  }

  /** One item of a set's element list. */
  function ItemTexts(it: Value, pr: Printer): seq<string> {
    if it.Obj? && Lookup(it.fields, "elem").Some? then TextOf(Unwrapped(Lookup(it.fields, "elem").value), pr)
    else TextOf(it, pr)
  }

  function ItemsTexts(items: seq<Value>, pr: Printer): seq<string> {
    if items == [] then [] else ItemsTexts(items[..|items| - 1], pr) + ItemTexts(items[|items| - 1], pr)
  }

  function SetItems(entry: Value): seq<Value> {
    if entry.Obj? && Lookup(entry.fields, "set").Some? then
      var s := Lookup(entry.fields, "set").value;
      if s.Obj? && Lookup(s.fields, "elem").Some? then
        var raw := Lookup(s.fields, "elem").value;
        if raw.Arr? then raw.items else []
      else []
    else []
  }

  /** The value of a top-level `elem` object; Null when the entry has none. */
  function TopElem(entry: Value): Value {
    if entry.Obj? && Lookup(entry.fields, "elem").Some? then
      var e := Lookup(entry.fields, "elem").value;
      if e.Obj? && Lookup(e.fields, "elem").Some? then Unwrapped(Lookup(e.fields, "elem").value) else Null
    else Null
  }

  function EntryTexts(entry: Value, pr: Printer): seq<string> {
    ItemsTexts(SetItems(entry), pr) + TextOf(TopElem(entry), pr)
  }

  function EntriesTexts(entries: seq<Value>, pr: Printer): seq<string> {
    if entries == [] then [] else EntriesTexts(entries[..|entries| - 1], pr) + EntryTexts(entries[|entries| - 1], pr)
  }

  /** `{e.strip() for e in elems if e.strip()}` */
  function StrippedSet(texts: seq<string>): set<string> {
    set e | e in texts && !Blank(e) :: Strip(e)
  }

  function ParseElements(fields: seq<Field>, pr: Printer): Option<set<string>> {
    var n := Lookup(fields, "nftables");
    if n.None? || !n.value.Arr? then None else Some(StrippedSet(EntriesTexts(n.value.items, pr)))
  }

  /** Appends the texts of one set's element list. */
  method AppendItems(elems: seq<string>, raw: seq<Value>, pr: Printer) returns (r: seq<string>)
    ensures r == elems + ItemsTexts(raw, pr)
  {
    r := elems;
    for j := 0 to |raw|
      invariant r == elems + ItemsTexts(raw[..j], pr)
    {
      assert raw[..j + 1][..j] == raw[..j];
      Associates(elems, ItemsTexts(raw[..j], pr), ItemTexts(raw[j], pr));
      var it := raw[j];
      if it.Obj? && Lookup(it.fields, "elem").Some? {
        var v := Unwrapped(Lookup(it.fields, "elem").value);
        if !v.Null? {
          r := r + [StrOf(v, pr)];
        }
      } else if !it.Null? {
        r := r + [StrOf(it, pr)];
      }
    }
    assert raw[..|raw|] == raw;
  }

  /** Collects the element texts of every entry and strips them. */
  method ParseElementsJson(fields: seq<Field>, pr: Printer) returns (r: Option<set<string>>)
    ensures r == ParseElements(fields, pr)
  {
    hide ItemsTexts, SetItems, TopElem, StrOf;
    var n := Lookup(fields, "nftables");
    if n.None? || !n.value.Arr? {
      return None;
    }
    var entries := n.value.items;
    var elems: seq<string> := [];
    for i := 0 to |entries|
      invariant elems == EntriesTexts(entries[..i], pr)
    {
      assert entries[..i + 1][..i] == entries[..i];
      ghost var before := elems;
      elems := AppendItems(elems, SetItems(entries[i]), pr);
      Associates(before, ItemsTexts(SetItems(entries[i]), pr), TextOf(TopElem(entries[i]), pr));
      var v := TopElem(entries[i]);
      if !v.Null? {
        elems := elems + [StrOf(v, pr)];
      }
    }
    assert entries[..|entries|] == entries;
    return Some(StrippedSet(elems));
  }

  lemma {:induction false} EntriesConcat(a: seq<Value>, b: seq<Value>, pr: Printer)
    ensures EntriesTexts(a + b, pr) == EntriesTexts(a, pr) + EntriesTexts(b, pr)
  {
    hide EntryTexts;
    if b == [] {
      EmptyUnit(a);
      EmptyUnit(EntriesTexts(a, pr));
    } else {
      var n := |b| - 1;
      EntriesConcat(a, b[..n], pr);
      assert (a + b)[..|a + b| - 1] == a + b[..n];
      Associates(EntriesTexts(a, pr), EntriesTexts(b[..n], pr), EntryTexts(b[n], pr));
    }
  }

  /** What an item of an element list comes to, whatever it is: the value under `elem` and then under
      `val` where there are such, and nothing for a null. */
  lemma ItemSays(it: Value, pr: Printer)
    ensures it == Null ==> ItemTexts(it, pr) == []
    ensures !it.Obj? && it != Null ==> ItemTexts(it, pr) == [StrOf(it, pr)]
    ensures it.Obj? && (forall f :: f in it.fields ==> f.key != "elem") ==> ItemTexts(it, pr) == [StrOf(it, pr)]
    ensures forall v :: it.Obj? && Lookup(it.fields, "elem") == Some(v) && !v.Obj? ==>
              ItemTexts(it, pr) == if v == Null then [] else [StrOf(v, pr)]
    ensures forall v, u :: it.Obj? && Lookup(it.fields, "elem") == Some(v) && v.Obj? && Lookup(v.fields, "val") == Some(u) ==>
              ItemTexts(it, pr) == if u == Null then [] else [StrOf(u, pr)]
    ensures forall v :: it.Obj? && Lookup(it.fields, "elem") == Some(v) && v.Obj? && Lookup(v.fields, "val") == None ==>
              ItemTexts(it, pr) == [StrOf(v, pr)]
  {
  }

  /** Concatenated listings parse to the union. */
  lemma ParseIsUnion(a: seq<Value>, b: seq<Value>, pr: Printer)
    ensures StrippedSet(EntriesTexts(a + b, pr)) == StrippedSet(EntriesTexts(a, pr)) + StrippedSet(EntriesTexts(b, pr))
  {
    EntriesConcat(a, b, pr);
    var x, y := EntriesTexts(a, pr), EntriesTexts(b, pr);
    assert forall e :: e in x + y <==> e in x || e in y;
  }

  /** The shapes `nft -j` gives an element. */
  datatype Shape = Bare | Wrapped | Valued

  /** A listed value: text or number. */
  datatype Listed = Listed(shape: Shape, value: Value)

  predicate Scalar(v: Value) { v.Num? || v.Str? }

  function Shown(l: Listed): Value {
    match l.shape
    case Bare => l.value
    case Wrapped => Obj([Field("elem", l.value)])
    case Valued => Obj([Field("elem", Obj([Field("val", l.value)]))])
  }

  function AllShown(ls: seq<Listed>): (vs: seq<Value>)
    ensures |vs| == |ls|
  {
    if ls == [] then [] else AllShown(ls[..|ls| - 1]) + [Shown(ls[|ls| - 1])]
  }

  /** One entry of a listing: a set with its elements among other fields, a top-level element, or
      something the parser has no use for. */
  datatype Chunk = SetEntry(before: seq<Field>, items: seq<Listed>) | ElemEntry(item: Listed) | Other(value: Value)

  predicate WellShaped(c: Chunk) {
    match c
    case SetEntry(before, items) =>
      Lookup(before, "elem").None? && forall i :: 0 <= i < |items| ==> Scalar(items[i].value)
    case ElemEntry(item) => Scalar(item.value) && !item.shape.Bare?
    case Other(v) => v.Obj? ==> Lookup(v.fields, "set").None? && Lookup(v.fields, "elem").None?
  }

  function ChunkEntry(c: Chunk): Value {
    match c
    case SetEntry(before, items) => Obj([Field("set", Obj(before + [Field("elem", Arr(AllShown(items)))]))])
    case ElemEntry(item) => Obj([Field("elem", Shown(item))])
    case Other(v) => v
  }

  function Entries(cs: seq<Chunk>): seq<Value> {
    if cs == [] then [] else Entries(cs[..|cs| - 1]) + [ChunkEntry(cs[|cs| - 1])]
  }

  function ListedTexts(ls: seq<Listed>, pr: Printer): seq<string> {
    if ls == [] then [] else ListedTexts(ls[..|ls| - 1], pr) + [StrOf(ls[|ls| - 1].value, pr)]
  }

  function ChunkTexts(c: Chunk, pr: Printer): seq<string> {
    match c
    case SetEntry(_, items) => ListedTexts(items, pr)
    case ElemEntry(item) => [StrOf(item.value, pr)]
    case Other(_) => []
  }

  function ChunksTexts(cs: seq<Chunk>, pr: Printer): seq<string> {
    if cs == [] then [] else ChunksTexts(cs[..|cs| - 1], pr) + ChunkTexts(cs[|cs| - 1], pr)
  }

  lemma ShownTexts(l: Listed, pr: Printer)
    requires Scalar(l.value)
    ensures ItemTexts(Shown(l), pr) == [StrOf(l.value, pr)]
  {
  }

  lemma {:induction false} AllShownTexts(ls: seq<Listed>, pr: Printer)
    requires forall i :: 0 <= i < |ls| ==> Scalar(ls[i].value)
    ensures ItemsTexts(AllShown(ls), pr) == ListedTexts(ls, pr)
  {
    if ls != [] {
      var n := |ls| - 1;
      AllShownTexts(ls[..n], pr);
      ShownTexts(ls[n], pr);
      assert AllShown(ls)[..n] == AllShown(ls[..n]);
    }
  }

  lemma ChunkRoundTrip(c: Chunk, pr: Printer)
    requires WellShaped(c)
    ensures EntryTexts(ChunkEntry(c), pr) == ChunkTexts(c, pr)
  {
    match c {
      case SetEntry(before, items) =>
        var elem := Field("elem", Arr(AllShown(items)));
        LookupConcat(before, [elem], "elem");
        AllShownTexts(items, pr);
        assert "set" != "elem" by { assert |"set"| != |"elem"|; }
        assert SetItems(ChunkEntry(c)) == AllShown(items);
        assert TopElem(ChunkEntry(c)) == Null;
      case ElemEntry(item) =>
        assert "set" != "elem" by { assert |"set"| != |"elem"|; }
        assert SetItems(ChunkEntry(c)) == [];
        assert TopElem(ChunkEntry(c)) == item.value;
      case Other(v) =>
        assert SetItems(v) == [] && TopElem(v) == Null;
    }
  }

  /** The JSON parser inverts rendering: whatever supported shapes the elements take and whatever
      unrelated entries surround them, it finds exactly their texts. */
  lemma {:induction false} JsonInverts(cs: seq<Chunk>, pr: Printer)
    requires forall i :: 0 <= i < |cs| ==> WellShaped(cs[i])
    ensures EntriesTexts(Entries(cs), pr) == ChunksTexts(cs, pr)
  {
    if cs != [] {
      var n := |cs| - 1;
      JsonInverts(cs[..n], pr);
      ChunkRoundTrip(cs[n], pr);
      assert (Entries(cs[..n]) + [ChunkEntry(cs[n])])[..|Entries(cs[..n])|] == Entries(cs[..n]);
    }
  }

  // ---------- the text listing ----------

  const ELEMENTS: string := "elements"

  /** After `elements`: blanks, `=`, blanks, `{`, then everything up to the first `}`. */
  function MatchHere(s: string): Option<string> {
    var a := StripLeft(s);
    if a == "" || a[0] != '=' then None
    else
      var b := StripLeft(a[1..]);
      if b == "" || b[0] != '{' then None else UpToBrace(b[1..])
  }

  function UpToBrace(s: string): Option<string> {
    if s == "" then None
    else if s[0] == '}' then Some("")
    else
      match UpToBrace(s[1..])
      case None => None
      case Some(t) => Some([s[0]] + t)
  }

  /** The leftmost match of `elements\s*=\s*\{(.*?)\}`. */
  function FindElements(s: string): Option<string> {
    if s == "" then None
    else if ELEMENTS <= s && MatchHere(s[|ELEMENTS|..]).Some? then MatchHere(s[|ELEMENTS|..])
    else FindElements(s[1..])
  }

  function ParseText(stdout: string): set<string> {
    match FindElements(stdout)
    case None => {}
    case Some(inner) => if Blank(inner) then {} else StrippedSet(SplitComma(Strip(inner)))
  }

  function Rendered(prefix: string, w: string, x: string, parts: seq<string>, suffix: string): string
    requires |parts| >= 1
  {
    prefix + (ELEMENTS + (w + (['='] + (x + (['{'] + (JoinComma(parts) + (['}'] + suffix)))))))
  }

  lemma {:induction false} BraceEnds(inner: string, suffix: string)
    requires '}' !in inner
    ensures UpToBrace(inner + (['}'] + suffix)) == Some(inner)
  {
    var s := inner + (['}'] + suffix);
    if inner != "" {
      assert inner == [inner[0]] + inner[1..];
      BraceEnds(inner[1..], suffix);
      assert s[1..] == inner[1..] + (['}'] + suffix) && s[0] == inner[0];
    } else {
      assert s[0] == '}';
    }
  }

  lemma HeadMatches(w: string, x: string, inner: string, suffix: string)
    requires Blanks(w) && Blanks(x) && '}' !in inner
    ensures MatchHere(w + (['='] + (x + (['{'] + (inner + (['}'] + suffix)))))) == Some(inner)
  {
    var c := inner + (['}'] + suffix);
    var b := ['{'] + c;
    var a := ['='] + (x + b);
    StripLeftPad(w, a);
    assert StripLeft(a) == a;
    assert a[1..] == x + b;
    StripLeftPad(x, b);
    assert StripLeft(b) == b && b[1..] == c;
    BraceEnds(inner, suffix);
  }

  /** The word does not start inside the prefix. */
  predicate FirstWord(prefix: string, rest: string) {
    forall i :: 0 <= i < |prefix| ==> !(ELEMENTS <= (prefix + rest)[i..])
  }

  lemma {:induction false} SkipPrefix(prefix: string, rest: string)
    requires FirstWord(prefix, rest)
    ensures FindElements(prefix + rest) == FindElements(rest)
  {
    var s := prefix + rest;
    if prefix == "" {
      assert s == rest;
    } else {
      assert s[0..] == s;
      assert s[1..] == prefix[1..] + rest;
      forall i | 0 <= i < |prefix[1..]|
        ensures !(ELEMENTS <= (prefix[1..] + rest)[i..])
      {
        assert (prefix[1..] + rest)[i..] == s[i + 1..];
      }
      SkipPrefix(prefix[1..], rest);
    }
  }

  predicate PlainParts(parts: seq<string>) {
    forall i :: 0 <= i < |parts| ==> ',' !in parts[i] && '}' !in parts[i]
  }

  lemma {:induction false} JoinedHasNoBrace(parts: seq<string>)
    requires |parts| >= 1 && PlainParts(parts)
    ensures '}' !in JoinComma(parts)
  {
    if |parts| > 1 {
      JoinedHasNoBrace(parts[1..]);
    }
  }

  lemma {:induction false} BraceMeans(s: string, inner: string) returns (suffix: string)
    requires UpToBrace(s) == Some(inner)
    ensures '}' !in inner && s == inner + (['}'] + suffix)
  {
    if s[0] == '}' {
      suffix := s[1..];
      assert s == [s[0]] + s[1..];
    } else {
      suffix := BraceMeans(s[1..], inner[1..]);
      assert inner == [s[0]] + inner[1..];
      assert s == [s[0]] + s[1..];
    }
  }

  lemma HeadMeans(s: string, inner: string) returns (w: string, x: string, suffix: string)
    requires MatchHere(s) == Some(inner)
    ensures Blanks(w) && Blanks(x) && '}' !in inner
    ensures s == w + (['='] + (x + (['{'] + (inner + (['}'] + suffix)))))
  {
    var a := StripLeft(s);
    w := StripLeftMeans(s);
    assert a == ['='] + a[1..];
    var b := StripLeft(a[1..]);
    x := StripLeftMeans(a[1..]);
    assert b == ['{'] + b[1..];
    suffix := BraceMeans(b[1..], inner);
  }

  predicate Surrounds(s: string, w: string, x: string, inner: string, suffix: string) {
    Blanks(w) && Blanks(x) && s == ELEMENTS + (w + (['='] + (x + (['{'] + (inner + (['}'] + suffix))))))
  }

  /** `elements`, blanks, `=`, blanks, `{`, `inner` and the next `}` stand at the start of `s`. */
  ghost predicate MatchAt(s: string, inner: string) {
    '}' !in inner && exists w, x, suffix :: Surrounds(s, w, x, inner, suffix)
  }

  lemma MatchAtIff(s: string, inner: string)
    ensures MatchAt(s, inner) <==> ELEMENTS <= s && MatchHere(s[|ELEMENTS|..]) == Some(inner)
  {
    hide MatchHere;
    if MatchAt(s, inner) {
      var w, x, suffix :| Surrounds(s, w, x, inner, suffix);
      HeadMatches(w, x, inner, suffix);
      assert s[|ELEMENTS|..] == w + (['='] + (x + (['{'] + (inner + (['}'] + suffix)))));
    }
    if ELEMENTS <= s && MatchHere(s[|ELEMENTS|..]) == Some(inner) {
      var w, x, suffix := HeadMeans(s[|ELEMENTS|..], inner);
      assert s == ELEMENTS + s[|ELEMENTS|..];
      assert Surrounds(s, w, x, inner, suffix);
    }
  }

  ghost predicate NoneIn(s: string) { forall i, inner :: 0 <= i <= |s| ==> !MatchAt(s[i..], inner) }

  ghost predicate LeftmostAt(s: string, i: nat, inner: string) {
    i <= |s| && MatchAt(s[i..], inner) && forall j, other :: 0 <= j < i ==> !MatchAt(s[j..], other)
  }

  lemma NoMatchInNothing(inner: string)
    ensures !MatchAt("", inner)
  {
  }

  /** The search finds the first place where an element list stands, and what stands between its braces;
      it finds nothing exactly when there is none. */
  lemma {:induction false} FindsLeftmost(s: string)
    ensures FindElements(s).None? <==> NoneIn(s)
    ensures FindElements(s).Some? ==> exists i: nat :: LeftmostAt(s, i, FindElements(s).value)
  {
    hide MatchAt, MatchHere;
    assert s[0..] == s;
    if s == "" {
      forall i, inner | 0 <= i <= |s|
        ensures !MatchAt(s[i..], inner)
      {
        NoMatchInNothing(inner);
      }
    } else {
      var here := if ELEMENTS <= s then MatchHere(s[|ELEMENTS|..]) else None;
      forall inner
        ensures MatchAt(s, inner) <==> here == Some(inner)
      {
        MatchAtIff(s, inner);
      }
      if here.Some? {
        assert MatchAt(s[0..], here.value);
        assert LeftmostAt(s, 0, here.value);
      } else {
        FindsLeftmost(s[1..]);
        NoneHere(s);
        if i: nat :| FindElements(s).Some? && LeftmostAt(s[1..], i, FindElements(s).value) {
          LaterMatch(s, i, FindElements(s).value);
        }
      }
    }
  }

  /** With no match at the very start, matches are those of the rest. */
  lemma NoneHere(s: string)
    requires s != "" && forall inner :: !MatchAt(s, inner)
    ensures NoneIn(s) <==> NoneIn(s[1..])
  {
    hide MatchAt;
    if NoneIn(s) {
      forall i, inner | 0 <= i <= |s[1..]|
        ensures !MatchAt(s[1..][i..], inner)
      {
        assert s[1..][i..] == s[i + 1..];
      }
    }
    if NoneIn(s[1..]) {
      forall i, inner | 0 <= i <= |s|
        ensures !MatchAt(s[i..], inner)
      {
        FromTail(s, i);
      }
    }
  }

  lemma FromTail(s: string, i: nat)
    requires s != "" && i <= |s|
    ensures i == 0 ==> s[i..] == s
    ensures i > 0 ==> s[i..] == s[1..][i - 1..]
  {
  }

  lemma LaterMatch(s: string, i: nat, inner: string)
    requires s != "" && (forall other :: !MatchAt(s, other)) && LeftmostAt(s[1..], i, inner)
    ensures LeftmostAt(s, i + 1, inner)
  {
    hide MatchAt;
    FromTail(s, i + 1);
    forall j, other | 0 <= j < i + 1
      ensures !MatchAt(s[j..], other)
    {
      FromTail(s, j);
    }
  }

  lemma RenderedFound(prefix: string, w: string, x: string, parts: seq<string>, suffix: string)
    requires |parts| >= 1 && PlainParts(parts) && Blanks(w) && Blanks(x)
    requires FirstWord(prefix, Rendered("", w, x, parts, suffix))
    ensures FindElements(Rendered(prefix, w, x, parts, suffix)) == Some(JoinComma(parts))
  {
    var inner := JoinComma(parts);
    var tail := w + (['='] + (x + (['{'] + (inner + (['}'] + suffix)))));
    var rest := ELEMENTS + tail;
    assert Rendered("", w, x, parts, suffix) == rest;
    SkipPrefix(prefix, rest);
    JoinedHasNoBrace(parts);
    HeadMatches(w, x, inner, suffix);
    assert ELEMENTS <= rest && rest[|ELEMENTS|..] == tail;
  }

  lemma StrippedSetReplaces(front: seq<string>, p: string, q: string, back: seq<string>)
    requires Strip(p) == Strip(q)
    ensures StrippedSet(front + [p] + back) == StrippedSet(front + [q] + back)
  {
    var a, b := front + [p] + back, front + [q] + back;
    forall e
      ensures e in StrippedSet(a) <==> e in StrippedSet(b)
    {
      if e in StrippedSet(a) {
        var x :| x in a && !Blank(x) && Strip(x) == e;
        if x == p {
          assert q in b;
        } else {
          assert x in b;
        }
      }
      if e in StrippedSet(b) {
        var x :| x in b && !Blank(x) && Strip(x) == e;
        if x == q {
          assert p in a;
        } else {
          assert x in a;
        }
      }
    }
  }

  /** Stripping the whole list first makes no difference once every piece is stripped. */
  lemma StripBeforeSplit(s: string)
    ensures StrippedSet(SplitComma(Strip(s))) == StrippedSet(SplitComma(s))
  {
    StripLeftBeforeSplit(s);
    StripRightBeforeSplit(StripLeft(s));
  }

  lemma StripLeftBeforeSplit(s: string)
    ensures StrippedSet(SplitComma(StripLeft(s))) == StrippedSet(SplitComma(s))
  {
    hide StripLeft, StripRight, Strip, StrippedSet, SplitComma;
    var ps := SplitComma(s);
    SplitStripLeft(s);
    StripAfterHalf(ps[0]);
    StrippedSetReplaces([], StripLeft(ps[0]), ps[0], ps[1..]);
    assert [] + [StripLeft(ps[0])] + ps[1..] == [StripLeft(ps[0])] + ps[1..] && [] + [ps[0]] + ps[1..] == ps;
  }

  lemma StripRightBeforeSplit(s: string)
    ensures StrippedSet(SplitComma(StripRight(s))) == StrippedSet(SplitComma(s))
  {
    hide StripLeft, StripRight, Strip, StrippedSet, SplitComma;
    var ps := SplitComma(s);
    var front, last := ps[..|ps| - 1], ps[|ps| - 1];
    SplitStripRight(s);
    StripAfterHalf(last);
    StrippedSetReplaces(front, StripRight(last), last, []);
    assert front + [last] + [] == ps && front + [StripRight(last)] + [] == front + [StripRight(last)];
  }

  /** The text parser inverts rendering: it finds the stripped, non-blank pieces, whatever blanks
      surround them and whatever text surrounds the element list. */
  lemma TextInverts(prefix: string, w: string, x: string, parts: seq<string>, suffix: string)
    requires |parts| >= 1 && PlainParts(parts) && Blanks(w) && Blanks(x)
    requires FirstWord(prefix, Rendered("", w, x, parts, suffix))
    ensures ParseText(Rendered(prefix, w, x, parts, suffix)) == StrippedSet(parts)
  {
    var inner := JoinComma(parts);
    RenderedFound(prefix, w, x, parts, suffix);
    SplitInvertsJoin(parts);
    StripBeforeSplit(inner);
    if Blank(inner) {
      assert SplitComma("") == [""] && Strip("") == "";
      assert StrippedSet([""]) == {};
    }
  }

  // ---------- listing and verifying ----------

  /** The two commands' outputs: JSON that parsed, and text; None where the command failed. */
  datatype Listing = Listing(json: Option<seq<Field>>, text: Option<string>)

  /** JSON if it has an answer, else text; None is an error. */
  function ListSet(l: Listing, pr: Printer): Option<set<string>> {
    var j := if l.json.Some? then ParseElements(l.json.value, pr) else None;
    if j.Some? then j else if l.text.Some? then Some(ParseText(l.text.value)) else None
  }

  /** The elements that are not blank, without the blanks around them. */
  function Trimmed(s: set<string>): set<string> { set e | e in s && !Blank(e) :: Strip(e) }

  /** The listing reports the elements of `s`, give or take blanks around them. */
  predicate Reports(l: Listing, pr: Printer, s: set<string>) {
    ListSet(l, pr) == Some(Trimmed(s))
  }

  /** Any JSON rendering of a set's elements reports the set. */
  lemma RenderedJsonReports(cs: seq<Chunk>, more: seq<Field>, text: Option<string>, pr: Printer, s: set<string>)
    requires forall i :: 0 <= i < |cs| ==> WellShaped(cs[i])
    requires forall e :: e in ChunksTexts(cs, pr) <==> e in s
    ensures Reports(Listing(Some([Field("nftables", Arr(Entries(cs)))] + more), text), pr, s)
  {
    JsonInverts(cs, pr);
    var fields := [Field("nftables", Arr(Entries(cs)))] + more;
    assert fields[0] == Field("nftables", Arr(Entries(cs)));
    assert StrippedSet(ChunksTexts(cs, pr)) == Trimmed(s);
  }

  /** A text listing: an empty set is listed without any element list. */
  function TextListing(prefix: string, w: string, x: string, parts: seq<string>, suffix: string): string {
    if parts == [] then prefix + suffix else Rendered(prefix, w, x, parts, suffix)
  }

  /** The word `elements` starts nowhere in the text. */
  predicate Wordless(s: string) { forall i :: 0 <= i < |s| ==> !(ELEMENTS <= s[i..]) }

  /** Nothing in the text around an element list can be taken for one. */
  predicate WellSurrounded(prefix: string, w: string, x: string, parts: seq<string>, suffix: string) {
    if parts == [] then Wordless(prefix + suffix)
    else Blanks(w) && Blanks(x) && FirstWord(prefix, Rendered("", w, x, parts, suffix))
  }

  lemma {:induction false} WordlessHasNone(s: string)
    requires Wordless(s)
    ensures FindElements(s) == None
  {
    if s != "" {
      assert s[0..] == s;
      forall i | 0 <= i < |s[1..]|
        ensures !(ELEMENTS <= s[1..][i..])
      {
        assert s[1..][i..] == s[i + 1..];
      }
      WordlessHasNone(s[1..]);
    }
  }

  lemma WordlessReports(stdout: string, pr: Printer)
    requires Wordless(stdout)
    ensures Reports(Listing(None, Some(stdout)), pr, {})
  {
    hide FindElements, Wordless;
    WordlessHasNone(stdout);
    assert Trimmed({}) == {};
  }

  /** Any text rendering reports the set too, empty or not, so the two parsers agree on it. */
  lemma RenderedTextReports(prefix: string, w: string, x: string, parts: seq<string>, suffix: string, pr: Printer, s: set<string>)
    requires PlainParts(parts) && WellSurrounded(prefix, w, x, parts, suffix)
    requires forall e :: e in parts <==> e in s
    ensures Reports(Listing(None, Some(TextListing(prefix, w, x, parts, suffix))), pr, s)
  {
    hide Rendered, ParseText, FirstWord, Wordless;
    if parts == [] {
      WordlessReports(prefix + suffix, pr);
      assert s == {};
    } else {
      TextInverts(prefix, w, x, parts, suffix);
      assert StrippedSet(parts) == Trimmed(s);
    }
  }

  /** Whether the nft program can be run, and what it lists. */
  datatype Listings = Listings(program: bool, v4: Listing, tcp: Listing, udp: Listing)

  function ShownAddrs(s: set<string>): set<string> { set a | a in s :: DropSlash32(a) }

  /** `str(int(p))` of a digit string. */
  function Renumbered(p: string): string
    requires DigitString(p)
  {
    Decimal(NumeralValue(p, 10))
  }

  function ShownPorts(s: set<string>): set<string> { set p | p in s && DigitString(p) :: Renumbered(p) }

  /** None is success. */
  function VerifyStep(k: Kernel, want: Sets, ls: Listings, pr: Printer): Option<Error> {
    var v4, tcp, udp := ListSet(ls.v4, pr), ListSet(ls.tcp, pr), ListSet(ls.udp, pr);
    if !ls.program then Some(ProgramMissing)
    else if !Baseline(k) then Some(BaselineMissing)
    else if v4.None? || tcp.None? || udp.None? then Some(NftFailed)
    else if ShownAddrs(v4.value) != want.addrs || ShownPorts(tcp.value) != want.tcp || ShownPorts(udp.value) != want.udp
    then Some(NftFailed)
    else None
  }

  /** The JSON command answered with a list of entries. */
  ghost predicate JsonAnswers(l: Listing, items: seq<Value>) {
    l.json.Some? && Lookup(l.json.value, "nftables") == Some(Arr(items))
  }

  /** The commands answer that the set's texts are `s`: the JSON command if it lists entries at all, and
      the text command otherwise. */
  ghost predicate Answers(l: Listing, pr: Printer, s: set<string>) {
    || (exists items :: JsonAnswers(l, items) && s == StrippedSet(EntriesTexts(items, pr)))
    || ((forall items :: !JsonAnswers(l, items)) && l.text.Some? && s == ParseText(l.text.value))
  }

  lemma ListSetIff(l: Listing, pr: Printer)
    ensures ListSet(l, pr).None? <==> l.text.None? && forall items :: !JsonAnswers(l, items)
    ensures forall s :: ListSet(l, pr) == Some(s) <==> Answers(l, pr, s)
  {
    hide EntriesTexts, ParseText, StrippedSet;
    if j :| l.json.Some? && Lookup(l.json.value, "nftables") == Some(j) && j.Arr? {
      assert JsonAnswers(l, j.items);
    }
  }

  /** Blank answers are dropped and the rest is stripped. */
  lemma StrippedSetHas(texts: seq<string>, e: string)
    ensures e in StrippedSet(texts) <==> e != "" && exists t :: t in texts && Strip(t) == e
  {
  }

  lemma ShownAddrsHas(s: set<string>, a: string)
    ensures a in ShownAddrs(s) <==> exists t :: t in s && DropSlash32(t) == a
  {
  }

  /** Only digit strings are seen as ports, without their leading zeros. */
  lemma ShownPortsHas(s: set<string>, p: string)
    ensures p in ShownPorts(s) <==> exists t :: t in s && DigitString(t) && p == Decimal(NumeralValue(t, 10))
  {
    hide Decimal, NumeralValue;
    if t :| t in s && DigitString(t) && p == Decimal(NumeralValue(t, 10)) {
      assert Renumbered(t) in ShownPorts(s);
    }
  }

  ghost predicate ReportAll(k: Kernel, ls: Listings, pr: Printer) {
    ls.program && Reports(ls.v4, pr, k.elems.addrs) && Reports(ls.tcp, pr, k.elems.tcp) && Reports(ls.udp, pr, k.elems.udp)
  }

  function SeenAddrs(s: set<string>): set<string> { set a | a in s && !Blank(a) :: DropSlash32(Strip(a)) }

  function SeenPorts(s: set<string>): set<string> { set p | p in s && DigitString(Strip(p)) :: Renumbered(Strip(p)) }

  /** What verification compares: the kernel's elements, stripped and normalised. */
  function Observed(s: Sets): Sets {
    Sets(SeenAddrs(s.addrs), SeenPorts(s.tcp), SeenPorts(s.udp))
  }

  lemma ObservedAddrs(s: set<string>)
    ensures ShownAddrs(Trimmed(s)) == SeenAddrs(s)
  {
    var t := Trimmed(s);
    forall e | e in s && !Blank(e)
      ensures DropSlash32(Strip(e)) in ShownAddrs(t)
    {
      assert Strip(e) in t;
    }
  }

  lemma ObservedPorts(s: set<string>)
    ensures ShownPorts(Trimmed(s)) == SeenPorts(s)
  {
    var t := Trimmed(s);
    forall e | e in s && DigitString(Strip(e))
      ensures Renumbered(Strip(e)) in ShownPorts(t)
    {
      assert Strip(e) in t;
    }
  }

  /** Every object the rules need is there. */
  predicate BaselineThere(k: Kernel) {
    k.table && AllowV4 in k.sets && TcpPorts in k.sets && UdpPorts in k.sets && k.chain
  }

  lemma BaselineIff(k: Kernel)
    ensures Baseline(k) <==> BaselineThere(k)
  {
  }

  /** Each of the three sets can be listed one way or the other. */
  ghost predicate AllAnswer(ls: Listings, pr: Printer, v4: set<string>, tcp: set<string>, udp: set<string>) {
    Answers(ls.v4, pr, v4) && Answers(ls.tcp, pr, tcp) && Answers(ls.udp, pr, udp)
  }

  /** Whatever the commands answer, or do not: verification succeeds exactly when the program runs, the
      baseline is there, each set is listed, and the listed sets, normalised, are the wanted ones. */
  lemma VerifyStepIff(k: Kernel, want: Sets, ls: Listings, pr: Printer)
    ensures VerifyStep(k, want, ls, pr) == None <==>
            && ls.program && BaselineThere(k)
            && exists v4, tcp, udp :: AllAnswer(ls, pr, v4, tcp, udp)
                 && ShownAddrs(v4) == want.addrs && ShownPorts(tcp) == want.tcp && ShownPorts(udp) == want.udp
    ensures VerifyStep(k, want, ls, pr) == Some(ProgramMissing) <==> !ls.program
    ensures VerifyStep(k, want, ls, pr) == Some(BaselineMissing) <==> ls.program && !BaselineThere(k)
    ensures VerifyStep(k, want, ls, pr) in {None, Some(ProgramMissing), Some(BaselineMissing), Some(NftFailed)}
  {
    hide Answers, ListSet, ShownAddrs, ShownPorts;
    ListSetIff(ls.v4, pr);
    ListSetIff(ls.tcp, pr);
    ListSetIff(ls.udp, pr);
    var v4, tcp, udp := ListSet(ls.v4, pr), ListSet(ls.tcp, pr), ListSet(ls.udp, pr);
    if v4.Some? && tcp.Some? && udp.Some? {
      assert AllAnswer(ls, pr, v4.value, tcp.value, udp.value);
    }
  }

  /** So a set that neither command lists fails verification. */
  lemma UnlistedFails(k: Kernel, want: Sets, ls: Listings, pr: Printer, l: Listing)
    requires ls.program && BaselineThere(k) && l in {ls.v4, ls.tcp, ls.udp}
    requires l.text.None? && forall items :: !JsonAnswers(l, items)
    ensures VerifyStep(k, want, ls, pr) == Some(NftFailed)
  {
    hide ListSet;
    ListSetIff(l, pr);
  }

  /** Whichever listing answers, verification succeeds exactly when the baseline is there and the
      normalised kernel sets are the wanted sets. */
  lemma VerifyIff(k: Kernel, want: Sets, ls: Listings, pr: Printer)
    requires ReportAll(k, ls, pr)
    ensures VerifyStep(k, want, ls, pr).None? <==> Baseline(k) && Observed(k.elems) == want
  {
    ObservedAddrs(k.elems.addrs);
    ObservedPorts(k.elems.tcp);
    ObservedPorts(k.elems.udp);
  }

  // ---------- apply, then verify ----------

  /** An address text that normalising and stripping leave alone. */
  predicate Settled(a: string) {
    a != "" && !IsSpace(a[0]) && !IsSpace(a[|a| - 1]) && !HasSlash32(a)
  }

  /** One trip through apply, the kernel, the listing and verify. */
  function Trip(a: string): string { DropSlash32(Strip(DropSlash32(a))) }

  lemma TripShrinks(a: string)
    ensures |Trip(a)| <= |a|
    ensures !Blank(a) && |Trip(a)| == |a| <==> Settled(a)
    ensures Settled(a) ==> Trip(a) == a && !Blank(DropSlash32(a))
  {
    StripFixed(a);
    DropSlash32Fixed(a);
    if !Blank(a) && |Trip(a)| == |a| {
      assert DropSlash32(a) == a && Strip(a) == a;
      assert a != "";
    }
  }

  /** The addresses verification sees after applying `want`. */
  function Tripped(want: set<string>): set<string> {
    set a | a in want && !Blank(a) && !Blank(DropSlash32(a)) :: Trip(a)
  }

  lemma LongestIn(s: set<string>) returns (n: nat)
    ensures forall a :: a in s ==> |a| <= n
  {
    if s == {} {
      n := 0;
    } else {
      var x :| x in s;
      var m := LongestIn(s - {x});
      n := if |x| > m then |x| else m;
      forall a | a in s
        ensures |a| <= n
      {
        assert a == x || a in s - {x};
      }
    }
  }

  /** A trip only shrinks texts, so a set it maps onto itself holds only settled ones: an unsettled
      member would need a longer unsettled one to come from, and so on without end. */
  lemma {:induction false} NoUnsettled(s: set<string>, a: string, n: nat)
    requires Tripped(s) == s && a in s && forall b :: b in s ==> |b| <= n
    ensures Settled(a)
    decreases n - |a|
  {
    hide Settled, Trip, Blank, DropSlash32;
    if !Settled(a) {
      assert a in Tripped(s);
      var b :| b in s && !Blank(b) && !Blank(DropSlash32(b)) && Trip(b) == a;
      TripShrinks(b);
      assert Settled(b) ==> b == a;
      assert |b| > |a|;
      NoUnsettled(s, b, n);
    }
  }

  lemma TrippedIff(s: set<string>)
    ensures Tripped(s) == s <==> forall a :: a in s ==> Settled(a)
  {
    if Tripped(s) == s {
      var n := LongestIn(s);
      forall a | a in s
        ensures Settled(a)
      {
        NoUnsettled(s, a, n);
      }
    }
    if forall a :: a in s ==> Settled(a) {
      forall a
        ensures a in Tripped(s) <==> a in s
      {
        if a in s {
          TripShrinks(a);
          TripBlank(a);
        }
        if a in Tripped(s) {
          var b :| b in s && !Blank(b) && !Blank(DropSlash32(b)) && Trip(b) == a;
          TripShrinks(b);
        }
      }
    }
  }

  lemma TripBlank(a: string)
    requires Settled(a)
    ensures !Blank(a)
  {
    StripFixed(a);
  }

  // ---------- the whole round trip ----------

  ghost predicate AllDecimals(ps: set<string>) { forall p :: p in ps ==> exists i: int :: p == Decimal(i) }

  lemma DecimalSurvives(p: string, i: int)
    requires p == Decimal(i)
    ensures Strip(p) == p && !Blank(p) && IntText(p) == Some(i)
    ensures DigitString(p) ==> Renumbered(p) == p
  {
    DecimalHasNoBlanks(i);
    IntTextOfDecimal(i);
    DecimalIsDigits(i);
  }

  lemma DecimalsAreNumbers(ps: set<string>)
    requires AllDecimals(ps)
    ensures AllNumbers(ps) && NormalPorts(ps) == ps
    ensures forall p :: p in ps ==> Strip(p) == p && (DigitString(p) ==> Renumbered(p) == p)
  {
    hide Strip, Blank, IntText, DigitString, Renumbered, Decimal;
    forall p | p in ps
      ensures Strip(p) == p && !Blank(p) && IntText(p).Some? && Decimal(IntText(p).value) == p
      ensures DigitString(p) ==> Renumbered(p) == p
    {
      var i: int :| p == Decimal(i);
      DecimalSurvives(p, i);
    }
  }

  lemma TrippedIsSeen(want: set<string>)
    ensures SeenAddrs(NormalAddrs(want)) == Tripped(want)
  {
    var n := NormalAddrs(want);
    forall a | a in want && !Blank(a) && !Blank(DropSlash32(a))
      ensures Trip(a) in SeenAddrs(n)
    {
      assert DropSlash32(a) in n;
    }
  }

  lemma SeenPortsOf(ps: set<string>)
    requires forall p :: p in ps ==> Strip(p) == p && (DigitString(p) ==> Renumbered(p) == p)
    ensures SeenPorts(ps) == set p | p in ps && DigitString(p)
  {
    hide Strip, DigitString, Renumbered;
    forall p | p in ps && DigitString(p)
      ensures p in SeenPorts(ps)
    {
      assert DigitString(Strip(p)) && p == Renumbered(Strip(p));
    }
  }

  lemma PortsSeen(want: set<string>)
    requires AllDecimals(want)
    ensures AllNumbers(want)
    ensures SeenPorts(NormalPorts(want)) == want <==> forall p :: p in want ==> DigitString(p)
  {
    hide *;
    DecimalsAreNumbers(want);
    SeenPortsOf(want);
  }

  /** Applying sets and then verifying the same sets, whichever listings answer, succeeds exactly when
      every address is settled - not blank, no blanks at its ends, no "/32" left in it - and no port
      is negative. */
  lemma ApplyThenVerifyIff(k: Kernel, want: Sets, env: Env, ls: Listings, pr: Printer)
    requires AllDecimals(want.tcp) && AllDecimals(want.udp)
    requires ApplyStep(k, want, env).err.None?
    requires ReportAll(ApplyStep(k, want, env).kernel, ls, pr)
    ensures VerifyStep(ApplyStep(k, want, env).kernel, want, ls, pr).None? <==>
            && (forall a :: a in want.addrs ==> Settled(a))
            && (forall p :: p in want.tcp + want.udp ==> DigitString(p))
  {
    hide VerifyStep, ReportAll, Tripped, Settled, SeenAddrs, SeenPorts, NormalAddrs, NormalPorts, AllNumbers, AllDecimals, DigitString;
    VerifyIff(ApplyStep(k, want, env).kernel, want, ls, pr);
    TrippedIsSeen(want.addrs);
    TrippedIff(want.addrs);
    PortsSeen(want.tcp);
    PortsSeen(want.udp);
  }

  // ---------- targets that survive the trip ----------

  predicate BlankFree(s: string) { forall i :: 0 <= i < |s| ==> !IsSpace(s[i]) }

  lemma {:induction false} DropsASlash(s: string)
    requires HasSlash32(s)
    ensures Count(DropSlash32(s), '/') < Count(s, '/')
  {
    if SLASH32 <= s {
      DropSlash32Kept(s, '/');
    } else {
      var i :| 0 <= i < |s| - 2 && s[i] == '/' && s[i + 1] == '3' && s[i + 2] == '2';
      assert i > 0;
      var t := s[1..];
      assert t[i - 1] == '/' && t[i] == '3' && t[i + 1] == '2';
      DropsASlash(t);
      assert ([s[0]] + DropSlash32(t))[1..] == DropSlash32(t);
    }
  }

  /** A target as operators write it: free of blanks, with at most one slash and not a leading one. */
  predicate Ordinary(t: string) { t != "" && BlankFree(t) && t[0] != '/' && Count(t, '/') <= 1 }

  /** Ordinary targets are settled once the store has normalised them. */
  lemma OrdinaryTargetSettles(t: string)
    requires Ordinary(t)
    ensures Settled(DropSlash32(t))
  {
    var d := DropSlash32(t);
    assert !(SLASH32 <= t) by {
      assert SLASH32[0] == '/';
    }
    assert d[0] == t[0];
    forall i | 0 <= i < |d|
      ensures !IsSpace(d[i])
    {
      DropSlash32Kept(t, d[i]);
      var j :| 0 <= j < |t| && t[j] == d[i];
    }
    if HasSlash32(d) {
      var i :| 0 <= i < |d| - 2 && d[i] == '/' && d[i + 1] == '3' && d[i + 2] == '2';
      CountZero(d, '/');
      DropSlash32Fixed(t);
      assert HasSlash32(t);
      DropsASlash(t);
    }
  }
}
