/** Parsed JSON, as Python holds it: objects are ordered fields with distinct keys, numbers are integers. */
module Json {
  import opened Options
  import opened Text

  datatype Value =
    | Null
    | Bool(b: bool)
    | Num(n: int)
    | Str(s: string)
    | Arr(items: seq<Value>)
    | Obj(fields: seq<Field>)

  datatype Field = Field(key: string, value: Value)

  /** `d.get(key)`, None when absent. */
  function Lookup(fields: seq<Field>, key: string): (r: Option<Value>)
    ensures r.Some? ==> Field(key, r.value) in fields
    ensures r.None? <==> forall f :: f in fields ==> f.key != key
  {
    if fields == [] then None
    else if fields[0].key == key then Some(fields[0].value)
    else Lookup(fields[1..], key)
  }

  /** `d.get(key, default)`. */
  function GetOr(fields: seq<Field>, key: string, default: Value): Value {
    var v := Lookup(fields, key);
    if v.Some? then v.value else default
  }

  /** The first field with a key is the one looked up. */
  lemma {:induction false} LookupFirst(fields: seq<Field>, i: nat)
    requires i < |fields| && forall j :: 0 <= j < i ==> fields[j].key != fields[i].key
    ensures Lookup(fields, fields[i].key) == Some(fields[i].value)
  {
    if i > 0 {
      assert fields[0].key != fields[i].key;
      LookupFirst(fields[1..], i - 1);
    }
  }

  lemma {:induction false} LookupConcat(a: seq<Field>, b: seq<Field>, key: string)
    requires Lookup(a, key).None?
    ensures Lookup(a + b, key) == Lookup(b, key)
  {
    if a == [] {
      assert a + b == b;
    } else {
      assert a[0] in a;
      assert (a + b)[1..] == a[1..] + b;
      LookupConcat(a[1..], b, key);
    }
  }

  /** How Python prints a list or a dict; nothing is known about it. */
  datatype Printer = Printer(repr: Value -> string)

  /** `str(v)`. */
  function StrOf(v: Value, pr: Printer): string {
    match v
    case Null => "None"
    case Bool(b) => if b then "True" else "False"
    case Num(n) => Decimal(n)
    case Str(s) => s
    case Arr(_) => pr.repr(v)
    case Obj(_) => pr.repr(v)
  }

  /** `bool(v)`. */
  predicate Truthy(v: Value) {
    match v
    case Null => false
    case Bool(b) => b
    case Num(n) => n != 0
    case Str(s) => s != ""
    case Arr(items) => items != []
    case Obj(fields) => fields != []
  }

  /** Six values are false; everything else is true, "false" and "0" included. */
  lemma TruthyIff(v: Value)
    ensures !Truthy(v) <==> v in {Null, Bool(false), Num(0), Str(""), Arr([]), Obj([])}
  {
  }

  lemma StrOfReads(n: int, s: string, pr: Printer)
    ensures StrOf(Num(n), pr) == Decimal(n) && StrOf(Str(s), pr) == s
    ensures StrOf(Null, pr) == "None" && StrOf(Bool(true), pr) == "True" && StrOf(Bool(false), pr) == "False"
  {
  }

  // ---------- Python's int() on text ----------

  predicate Signed(s: string) { s != "" && (s[0] == '-' || s[0] == '+') }

  /** `int(s)` for decimal digits with an optional sign and surrounding blanks; None is ValueError. */
  function IntText(s: string): Option<int> {
    var t := Strip(s);
    var digits := if Signed(t) then t[1..] else t;
    if !DigitString(digits) then None
    else Some(if Signed(t) && t[0] == '-' then -(NumeralValue(digits, 10) as int) else NumeralValue(digits, 10))
  }

  lemma DecimalHasNoBlanks(i: int)
    ensures Strip(Decimal(i)) == Decimal(i) && !Blank(Decimal(i))
  {
    StripFixed(Decimal(i));
  }

  /** `int(str(i)) == i`. */
  lemma IntTextOfDecimal(i: int)
    ensures IntText(Decimal(i)) == Some(i)
  {
    hide Strip, Blank, Numeral, NumeralValue;
    DecimalHasNoBlanks(i);
    if i < 0 {
      assert Decimal(i)[1..] == Numeral(-i, 10);
      NumeralRoundTrip(-i, 10);
    } else {
      DecimalIsDigits(i);
      assert IsDigit(Decimal(i)[0]);
    }
  }

  /** `int(v)`; None where it raises. */
  function IntOf(v: Value): Option<int> {
    match v
    case Num(n) => Some(n)
    case Bool(b) => Some(if b then 1 else 0)
    case Str(s) => IntText(s)
    case _ => None
  }

  /** `int` of a text: blanks around an optional sign and digits, and nothing else, is the number read. */
  lemma IntTextReads(w: string, sign: string, digits: string, x: string)
    requires Blanks(w) && Blanks(x) && sign in {"", "+", "-"} && DigitString(digits)
    ensures IntText(w + (sign + digits) + x)
         == Some(if sign == "-" then -(NumeralValue(digits, 10) as int) else NumeralValue(digits, 10))
  {
    hide NumeralValue, Strip;
    var t := sign + digits;
    assert forall c: char :: IsDigit(c) ==> !IsSpace(c);
    assert !IsSpace('+') && !IsSpace('-');
    assert t[|t| - 1] == digits[|digits| - 1];
    StripPadded(w, t, x);
    if sign != "" {
      assert t[0] == sign[0] && t[1..] == digits;
    } else {
      assert t == digits && !Signed(digits);
    }
  }

  lemma IntTextOnly(s: string) returns (w: string, sign: string, digits: string, x: string)
    requires IntText(s).Some?
    ensures Blanks(w) && Blanks(x) && sign in {"", "+", "-"} && DigitString(digits) && s == w + (sign + digits) + x
  {
    hide Strip, IsSpace;
    w, x := StripMeans(s);
    var t := Strip(s);
    if Signed(t) {
      sign, digits := t[..1], t[1..];
      assert sign == [t[0]] && t == sign + digits;
      assert sign == if t[0] == '-' then "-" else "+";
    } else {
      sign, digits := "", t;
      assert t == "" + t;
    }
  }

  /** `int` of other values: numbers and truth values pass, the rest raises. */
  lemma IntOfReads(v: Value)
    ensures v.Num? ==> IntOf(v) == Some(v.n)
    ensures IntOf(Bool(true)) == Some(1) && IntOf(Bool(false)) == Some(0)
    ensures v.Str? ==> IntOf(v) == IntText(v.s)
    ensures v.Null? || v.Arr? || v.Obj? ==> IntOf(v).None?
  {
  }
}
