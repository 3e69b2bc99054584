/** Character-level operations both halves of the repository rely on: numerals,
    delimiter-joined fields, `strip`, `replace("/32", "")` and comma splitting. */
module Text {

  // ---------- numerals ----------

  predicate IsDigit(c: char) { '0' <= c <= '9' }

  function DigitChar(d: nat): char
    requires d < 10
  {
    '0' + d as char
  }

  function CharDigit(c: char): nat
    requires IsDigit(c)
  {
    c as nat - '0' as nat
  }

  /** `n` written in `base`, most significant digit first and with no leading zero. */
  function Numeral(n: nat, base: nat): (s: string)
    requires 2 <= base <= 10
    ensures s != "" && forall i :: 0 <= i < |s| ==> IsDigit(s[i])
  {
    if n < base then [DigitChar(n)]
    else
      Quotient(n, base);
      Numeral(n / base, base) + [DigitChar(n % base)]
  }

  lemma Quotient(n: nat, base: nat)
    requires 2 <= base <= n
    ensures 0 < n / base < n && n % base < base
  {
    var q, r := n / base, n % base;
    assert n == q * base + r;
    assert q * base >= q * 2;
  }

  predicate AllDigits(s: string) { forall i :: 0 <= i < |s| ==> IsDigit(s[i]) }

  /** The number a digit string denotes in `base`. */
  function NumeralValue(s: string, base: nat): nat
    requires AllDigits(s)
  {
    if s == "" then 0 else NumeralValue(s[..|s| - 1], base) * base + CharDigit(s[|s| - 1])
  }

  lemma {:induction false} NumeralRoundTrip(n: nat, base: nat)
    requires 2 <= base <= 10
    ensures NumeralValue(Numeral(n, base), base) == n
  {
    hide NumeralValue;
    if n >= base {
      NumeralRoundTrip(n / base, base);
      NumeralValueSnoc(Numeral(n / base, base), n % base, base);
      QuotientRemainder(n, base);
    } else {
      NumeralValueSnoc("", n, base);
      assert "" + [DigitChar(n)] == [DigitChar(n)];
      NumeralValueEmpty(base);
    }
  }

  lemma NumeralValueSnoc(s: string, d: nat, base: nat)
    requires AllDigits(s) && d < 10
    ensures AllDigits(s + [DigitChar(d)])
    ensures NumeralValue(s + [DigitChar(d)], base) == NumeralValue(s, base) * base + d
  {
    assert (s + [DigitChar(d)])[..|s|] == s;
  }

  lemma NumeralValueEmpty(base: nat)
    ensures NumeralValue("", base) == 0
  {
  }

  lemma QuotientRemainder(n: nat, base: nat)
    requires base > 0
    ensures n / base * base + n % base == n
  {
  }

  lemma NumeralInjective(m: nat, n: nat, base: nat)
    requires 2 <= base <= 10
    requires Numeral(m, base) == Numeral(n, base)
    ensures m == n
  {
    NumeralRoundTrip(m, base);
    NumeralRoundTrip(n, base);
  }

  lemma DigitsRead(n: nat)
    requires n < 10
    ensures Numeral(n, 10) == ["0123456789"[n]]
  {
    assert "0123456789"[n] == '0' + n as char;
  }

  /** No numeral but zero's starts with a zero; the last digit is the remainder. */
  lemma {:induction false} NumeralIsCanonical(n: nat, base: nat)
    requires 2 <= base <= 10
    ensures |Numeral(n, base)| > 1 ==> Numeral(n, base)[0] != '0'
    ensures Numeral(n, base) == "0" <==> n == 0
    ensures n >= base ==> Numeral(n, base) == Numeral(n / base, base) + Numeral(n % base, base)
  {
    if n >= base {
      Quotient(n, base);
      NumeralIsCanonical(n / base, base);
    } else {
      assert DigitChar(n) == '0' <==> n == 0;
    }
  }

  /** `str(i)` of a Python integer. */
  function Decimal(i: int): (s: string)
    ensures s != ""
  {
    if i < 0 then "-" + Numeral(-i, 10) else Numeral(i, 10)
  }

  /** `s.isdigit()`: non-empty and made of digits. */
  predicate DigitString(s: string) { s != "" && AllDigits(s) }

  lemma DecimalIsDigits(i: int)
    ensures DigitString(Decimal(i)) <==> 0 <= i
    ensures 0 <= i ==> NumeralValue(Decimal(i), 10) == i
  {
    if i < 0 {
      assert Decimal(i)[0] == '-';
    } else {
      NumeralRoundTrip(i, 10);
    }
  }

  lemma DecimalReads(i: int)
    ensures 0 <= i ==> Decimal(i) == Numeral(i, 10)
    ensures i < 0 ==> Decimal(i) == ['-'] + Numeral(-i, 10)
  {
  }

  // ---------- delimiter-joined fields ----------

  function Count(s: string, c: char): nat {
    if s == "" then 0 else (if s[0] == c then 1 else 0) + Count(s[1..], c)
  }

  lemma {:induction false} CountZero(s: string, c: char)
    ensures Count(s, c) == 0 <==> c !in s
  {
    if s != "" {
      CountZero(s[1..], c);
      assert s == [s[0]] + s[1..];
    }
  }

  lemma {:induction false} CountConcat(a: string, b: string, c: char)
    ensures Count(a + b, c) == Count(a, c) + Count(b, c)
  {
    if a == "" {
      assert a + b == b;
    } else {
      CountConcat(a[1..], b, c);
      assert (a + b)[1..] == a[1..] + b;
    }
  }

  /** A first field is recovered from `field + delimiter + rest` by its own delimiter count. */
  lemma {:induction false} SplitFirst(a: string, x: string, b: string, y: string, c: char)
    requires a + [c] + x == b + [c] + y
    requires Count(a, c) == Count(b, c)
    ensures a == b && x == y
  {
    var s, t := a + [c] + x, b + [c] + y;
    assert s[0] == if a == "" then c else a[0];
    assert t[0] == if b == "" then c else b[0];
    if a == "" {
      assert s[1..] == x && t[1..] == y;
    } else {
      assert s[1..] == a[1..] + [c] + x && t[1..] == b[1..] + [c] + y;
      SplitFirst(a[1..], x, b[1..], y, c);
      assert a == [a[0]] + a[1..] && b == [b[0]] + b[1..];
    }
  }

  lemma SplitFree(a: string, x: string, b: string, y: string, c: char)
    requires a + [c] + x == b + [c] + y
    requires c !in a && c !in b
    ensures a == b && x == y
  {
    CountZero(a, c);
    CountZero(b, c);
    SplitFirst(a, x, b, y, c);
  }

  /** A last field free of the delimiter is recovered whatever the first field holds. */
  lemma SplitLast(a: string, x: string, b: string, y: string, c: char)
    requires a + [c] + x == b + [c] + y
    requires c !in x && c !in y
    ensures a == b && x == y
  {
    var s, t := a + [c] + x, b + [c] + y;
    assert s[|a|] == c && s[|a| + 1..] == x;
    assert t[|b|] == c && t[|b| + 1..] == y;
    assert forall k :: |a| < k < |s| ==> s[k] == x[k - |a| - 1];
    assert forall k :: |b| < k < |t| ==> t[k] == y[k - |b| - 1];
    assert s[..|a|] == a && t[..|b|] == b;
  }

  // ---------- strip ----------

  /** Python's `str.isspace` for one character. */
  predicate IsSpace(c: char) {
    var u := c as int;
    || 9 <= u <= 13 || 28 <= u <= 32 || u == 0x85 || u == 0xA0 || u == 0x1680
    || 0x2000 <= u <= 0x200A || u == 0x2028 || u == 0x2029 || u == 0x202F || u == 0x205F || u == 0x3000
  }

  function StripLeft(s: string): (r: string)
    ensures |r| <= |s|
    ensures |r| == |s| ==> r == s
    ensures r != "" ==> !IsSpace(r[0])
  {
    if s != "" && IsSpace(s[0]) then StripLeft(s[1..]) else s
  }

  function StripRight(s: string): (r: string)
    ensures r <= s
    ensures r != "" ==> !IsSpace(r[|r| - 1])
  {
    if s != "" && IsSpace(s[|s| - 1]) then StripRight(s[..|s| - 1]) else s
  }

  /** `s.strip()`. */
  function Strip(s: string): (r: string)
    ensures |r| <= |s|
    ensures |r| == |s| ==> r == s
  {
    StripRight(StripLeft(s))
  }

  predicate Blank(s: string) { Strip(s) == "" }

  /** Exactly the strings with no whitespace at either end are left alone. */
  lemma StripFixed(s: string)
    ensures Strip(s) == s <==> s == "" || (!IsSpace(s[0]) && !IsSpace(s[|s| - 1]))
  {
    if s != "" && Strip(s) == s {
      assert |StripLeft(s)| == |s|;
    }
  }

  lemma {:induction false} StripLeftPad(w: string, s: string)
    requires forall i :: 0 <= i < |w| ==> IsSpace(w[i])
    ensures StripLeft(w + s) == StripLeft(s)
  {
    if w == "" {
      assert w + s == s;
    } else {
      assert (w + s)[1..] == w[1..] + s;
      StripLeftPad(w[1..], s);
    }
  }

  lemma {:induction false} StripRightPad(s: string, w: string)
    requires forall i :: 0 <= i < |w| ==> IsSpace(w[i])
    ensures StripRight(s + w) == StripRight(s)
  {
    if w == "" {
      assert s + w == s;
    } else {
      assert (s + w)[..|s + w| - 1] == s + w[..|w| - 1];
      StripRightPad(s, w[..|w| - 1]);
    }
  }

  lemma {:induction false} StripsCommute(s: string)
    ensures StripLeft(StripRight(s)) == StripRight(StripLeft(s))
  {
    if s != "" && IsSpace(s[0]) {
      StripsCommute(s[1..]);
      StripRightPrepend(s[0], s[1..]);
      assert s == [s[0]] + s[1..];
    }
  }

  lemma {:induction false} StripRightPrepend(c: char, s: string)
    ensures StripRight([c] + s) == if StripRight(s) == "" && IsSpace(c) then "" else [c] + StripRight(s)
  {
    var t := [c] + s;
    if s == "" {
      assert t[..|t| - 1] == "";
    } else {
      assert t[|t| - 1] == s[|s| - 1] && t[..|t| - 1] == [c] + s[..|s| - 1];
      if IsSpace(s[|s| - 1]) {
        StripRightPrepend(c, s[..|s| - 1]);
      }
    }
  }

  predicate Blanks(w: string) { forall i :: 0 <= i < |w| ==> IsSpace(w[i]) }

  /** The blanks, one by one. */
  lemma BlanksAre(c: char)
    ensures IsSpace(c) <==>
            c as int in {9, 10, 11, 12, 13, 28, 29, 30, 31, 32, 133, 160, 5760, 8192, 8193, 8194, 8195, 8196, 8197, 8198,
                         8199, 8200, 8201, 8202, 8232, 8233, 8239, 8287, 12288}
  {
  }

  lemma {:induction false} StripLeftMeans(s: string) returns (w: string)
    ensures Blanks(w) && s == w + StripLeft(s)
  {
    hide IsSpace;
    if s != "" && IsSpace(s[0]) {
      var v := StripLeftMeans(s[1..]);
      w := [s[0]] + v;
      assert s == [s[0]] + s[1..];
    } else {
      w := "";
      assert s == "" + s;
    }
  }

  lemma {:induction false} StripRightMeans(s: string) returns (w: string)
    ensures Blanks(w) && s == StripRight(s) + w
  {
    hide IsSpace;
    if s != "" && IsSpace(s[|s| - 1]) {
      var v := StripRightMeans(s[..|s| - 1]);
      w := v + [s[|s| - 1]];
      assert s == s[..|s| - 1] + [s[|s| - 1]];
    } else {
      w := "";
      assert s == s + "";
    }
  }

  /** Stripping takes away blanks at both ends and leaves none there. */
  lemma StripMeans(s: string) returns (w: string, x: string)
    ensures Blanks(w) && Blanks(x) && s == w + Strip(s) + x
    ensures Strip(s) != "" ==> !IsSpace(Strip(s)[0]) && !IsSpace(Strip(s)[|Strip(s)| - 1])
  {
    w := StripLeftMeans(s);
    x := StripRightMeans(StripLeft(s));
    assert s == w + (Strip(s) + x) == w + Strip(s) + x;
  }

  /** And is told by that: what is left between the blanks is what stripping gives. */
  lemma StripPadded(w: string, t: string, x: string)
    requires Blanks(w) && Blanks(x) && (t != "" ==> !IsSpace(t[0]) && !IsSpace(t[|t| - 1]))
    ensures Strip(w + t + x) == t
  {
    assert w + t + x == w + (t + x);
    StripLeftPad(w, t + x);
    if t != "" {
      assert (t + x)[0] == t[0];
      StripRightPad(t, x);
    } else {
      assert t + x == x && x + "" == x;
      StripLeftPad(x, "");
    }
  }

  /** Half-stripping first changes nothing. */
  lemma StripAfterHalf(s: string)
    ensures Strip(StripLeft(s)) == Strip(s) && Strip(StripRight(s)) == Strip(s)
  {
    StripsCommute(s);
  }

  // ---------- replace("/32", "") ----------

  const SLASH32: string := "/32"

  /** `s.replace("/32", "")`: every occurrence, left to right, without rescanning. */
  function DropSlash32(s: string): (r: string)
    ensures |r| <= |s|
    ensures |r| == |s| ==> r == s
  {
    if s == "" then ""
    else if SLASH32 <= s then DropSlash32(s[3..])
    else [s[0]] + DropSlash32(s[1..])
  }

  predicate HasSlash32(s: string) {
    exists i :: 0 <= i < |s| - 2 && s[i] == '/' && s[i + 1] == '3' && s[i + 2] == '2'
  }

  lemma {:induction false} DropSlash32Fixed(s: string)
    ensures DropSlash32(s) == s <==> !HasSlash32(s)
  {
    hide HasSlash32;
    HasSlash32Cases(s);
    if s == "" {
    } else if SLASH32 <= s {
      assert |DropSlash32(s)| < |s|;
    } else {
      DropSlash32Fixed(s[1..]);
      SameTail(s, [s[0]] + DropSlash32(s[1..]));
    }
  }

  lemma SameTail(s: string, r: string)
    requires s != "" && r != "" && s[0] == r[0]
    ensures s == r <==> s[1..] == r[1..]
    ensures forall t :: r == [s[0]] + t ==> r[1..] == t
  {
    assert s == [s[0]] + s[1..] && r == [r[0]] + r[1..];
  }

  lemma HasSlash32Later(s: string)
    requires s != "" && HasSlash32(s[1..])
    ensures HasSlash32(s)
  {
    var t := s[1..];
    var i :| 0 <= i < |t| - 2 && t[i] == '/' && t[i + 1] == '3' && t[i + 2] == '2';
    assert s[i + 1] == '/' && s[i + 2] == '3' && s[i + 3] == '2';
  }

  lemma HasSlash32First(s: string)
    requires SLASH32 <= s
    ensures HasSlash32(s)
  {
    assert s[0] == SLASH32[0] && s[1] == SLASH32[1] && s[2] == SLASH32[2];
  }

  lemma HasSlash32Elsewhere(s: string)
    requires HasSlash32(s) && !(SLASH32 <= s)
    ensures s != "" && HasSlash32(s[1..])
  {
    var t := s[1..];
    var i :| 0 <= i < |s| - 2 && s[i] == '/' && s[i + 1] == '3' && s[i + 2] == '2';
    assert i > 0;
    assert t[i - 1] == '/' && t[i] == '3' && t[i + 1] == '2';
  }

  /** An occurrence is at the start or further on. */
  lemma HasSlash32Cases(s: string)
    ensures s == "" ==> !HasSlash32(s)
    ensures s != "" ==> (HasSlash32(s) <==> SLASH32 <= s || HasSlash32(s[1..]))
  {
    hide HasSlash32;
    if SLASH32 <= s {
      HasSlash32First(s);
    } else if HasSlash32(s) {
      HasSlash32Elsewhere(s);
    }
    if s != "" && HasSlash32(s[1..]) {
      HasSlash32Later(s);
    }
  }

  /** Every character the replacement keeps was there before, and slashes only disappear. */
  lemma {:induction false} DropSlash32Kept(s: string, c: char)
    ensures c in DropSlash32(s) ==> c in s
    ensures Count(DropSlash32(s), c) <= Count(s, c)
    ensures c == '/' && SLASH32 <= s ==> Count(DropSlash32(s), c) < Count(s, c)
  {
    if s == "" {
    } else if SLASH32 <= s {
      DropSlash32Kept(s[3..], c);
      assert Count(s, c) == (if s[0] == c then 1 else 0) + Count(s[1..], c);
      assert s[1..][1..] == s[2..] && s[2..][1..] == s[3..];
      assert Count(s[1..], c) >= Count(s[2..], c) >= Count(s[3..], c);
    } else {
      DropSlash32Kept(s[1..], c);
      var r := DropSlash32(s);
      assert r[1..] == DropSlash32(s[1..]);
    }
  }

  /** The leftmost occurrence goes, and what follows it is searched on its own. */
  lemma {:induction false} DropSlash32First(a: string, b: string)
    requires !HasSlash32(a + "/3")
    ensures DropSlash32(a + "/32" + b) == a + DropSlash32(b)
  {
    var s := a + "/32" + b;
    if a == "" {
      assert s[..3] == SLASH32 && s[3..] == b;
    } else {
      var t := a + "/3";
      assert t == [a[0]] + (a[1..] + "/3");
      assert t[1..] == a[1..] + "/3";
      NotLater(t);
      assert s[0] == a[0] && s[1..] == a[1..] + "/32" + b;
      assert s == t + (['2'] + b);
      SamePrefix(t, ['2'] + b);
      DropSlash32First(a[1..], b);
    }
  }

  lemma SamePrefix(t: string, rest: string)
    requires |t| >= 3
    ensures SLASH32 <= t + rest <==> SLASH32 <= t
  {
    assert (t + rest)[..3] == t[..3];
  }

  lemma NotLater(t: string)
    requires t != "" && !HasSlash32(t)
    ensures !HasSlash32(t[1..]) && !(SLASH32 <= t)
  {
    HasSlash32Cases(t);
  }

  /** A host address written with its prefix length loses just that. */
  lemma DropSlash32Suffix(a: string)
    requires !HasSlash32(a + "/3")
    ensures DropSlash32(a + "/32") == a
  {
    DropSlash32First(a, "");
    assert a + "/32" + "" == a + "/32";
  }

  // ---------- split(",") ----------

  /** `s.split(",")`: always at least one piece. */
  function SplitComma(s: string): (ps: seq<string>)
    ensures |ps| >= 1
  {
    if s == "" then [""]
    else
      var rest := SplitComma(s[1..]);
      if s[0] == ',' then [""] + rest else Grown(s[0], rest)
  }

  /** A character more at the front of the first piece. */
  function Grown(c: char, ps: seq<string>): (r: seq<string>)
    requires |ps| >= 1
    ensures |r| == |ps|
  {
    [[c] + ps[0]] + ps[1..]
  }

  /** A character more at the end of the last piece. */
  function Extended(ps: seq<string>, c: char): (r: seq<string>)
    requires |ps| >= 1
    ensures |r| == |ps|
  {
    ps[..|ps| - 1] + [ps[|ps| - 1] + [c]]
  }

  lemma GrownExtended(d: char, ps: seq<string>, c: char)
    requires |ps| >= 1
    ensures Grown(d, Extended(ps, c)) == Extended(Grown(d, ps), c)
    ensures Grown(d, ps + [""]) == Grown(d, ps) + [""]
  {
    if |ps| == 1 {
      assert [d] + (ps[0] + [c]) == ([d] + ps[0]) + [c];
    }
  }

  lemma FreshExtended(ps: seq<string>, c: char)
    requires |ps| >= 1
    ensures [""] + Extended(ps, c) == Extended([""] + ps, c)
    ensures [""] + (ps + [""]) == ([""] + ps) + [""]
  {
  }

  /** `",".join(ps)`. */
  function JoinComma(ps: seq<string>): string
    requires |ps| >= 1
  {
    if |ps| == 1 then ps[0] else ps[0] + "," + JoinComma(ps[1..])
  }

  lemma {:induction false} SplitPiece(p: string, rest: string)
    requires ',' !in p
    ensures SplitComma(p) == [p]
    ensures SplitComma(p + "," + rest) == [p] + SplitComma(rest)
  {
    if p == "" {
      var s := p + "," + rest;
      assert s[1..] == rest;
    } else {
      SplitPiece(p[1..], rest);
      assert p == [p[0]] + p[1..];
      var s := p + "," + rest;
      assert s[0] == p[0] && s[1..] == p[1..] + "," + rest;
    }
  }

  /** Splitting inverts joining for comma-free pieces. */
  lemma {:induction false} SplitInvertsJoin(ps: seq<string>)
    requires |ps| >= 1
    requires forall i :: 0 <= i < |ps| ==> ',' !in ps[i]
    ensures SplitComma(JoinComma(ps)) == ps
  {
    if |ps| == 1 {
      SplitPiece(ps[0], "");
    } else {
      SplitPiece(ps[0], JoinComma(ps[1..]));
      SplitInvertsJoin(ps[1..]);
      assert ps == [ps[0]] + ps[1..];
    }
  }

  lemma {:induction false} SplitSnoc(s: string, c: char)
    ensures SplitComma(s + [c]) == if c == ',' then SplitComma(s) + [""] else Extended(SplitComma(s), c)
  {
    if s == "" {
      assert s + [c] == [c] && [c][1..] == "";
      assert [c] + "" == "" + [c];
    } else {
      SplitSnoc(s[1..], c);
      assert (s + [c])[1..] == s[1..] + [c] && (s + [c])[0] == s[0];
      hide Grown, Extended;
      GrownExtended(s[0], SplitComma(s[1..]), c);
      FreshExtended(SplitComma(s[1..]), c);
    }
  }

  /** Stripping a comma-joined text on the left strips its first piece, and nothing else. */
  lemma {:induction false} SplitStripLeft(s: string)
    ensures SplitComma(StripLeft(s)) == [StripLeft(SplitComma(s)[0])] + SplitComma(s)[1..]
  {
    if s != "" && IsSpace(s[0]) {
      SplitStripLeft(s[1..]);
      var rest := SplitComma(s[1..]);
      assert ([s[0]] + rest[0])[1..] == rest[0];
    } else {
      var ps := SplitComma(s);
      assert ps == [ps[0]] + ps[1..];
    }
  }

  /** Stripping it on the right strips its last piece, and nothing else. */
  lemma {:induction false} SplitStripRight(s: string)
    ensures var ps := SplitComma(s);
            SplitComma(StripRight(s)) == ps[..|ps| - 1] + [StripRight(ps[|ps| - 1])]
  {
    hide SplitComma, Extended;
    var ps := SplitComma(s);
    assert ps == ps[..|ps| - 1] + [ps[|ps| - 1]];
    if s != "" {
      var n, c := |s| - 1, s[|s| - 1];
      assert s == s[..n] + [c];
      SplitSnoc(s[..n], c);
      if IsSpace(c) {
        SplitStripRight(s[..n]);
        ExtendedParts(SplitComma(s[..n]), c);
      } else {
        LastPieceStays(SplitComma(s[..n]), c);
      }
    } else {
      NoPieces();
    }
  }

  lemma ExtendedParts(ps: seq<string>, c: char)
    requires |ps| >= 1 && IsSpace(c)
    ensures var es, n := Extended(ps, c), |ps| - 1;
            c != ',' && es[..|es| - 1] == ps[..n] && StripRight(es[|es| - 1]) == StripRight(ps[n])
  {
    var last := ps[|ps| - 1];
    assert (last + [c])[..|last|] == last;
  }

  lemma LastPieceStays(ps: seq<string>, c: char)
    requires |ps| >= 1 && !IsSpace(c)
    ensures StripRight("") == ""
    ensures var es := Extended(ps, c);
            StripRight(es[|es| - 1]) == es[|es| - 1]
  {
  }

  lemma NoPieces()
    ensures SplitComma("") == [""] && StripRight("") == ""
  {
  }

  // ---------- lexicographic order of strings ----------

  /** Go's and Python's `a < b` on strings. */
  predicate Lex(a: string, b: string) {
    b != "" && (a == "" || a[0] < b[0] || (a[0] == b[0] && Lex(a[1..], b[1..])))
  }

  lemma {:induction false} LexTrichotomy(a: string, b: string)
    ensures !(Lex(a, b) && Lex(b, a))
    ensures !Lex(a, b) && !Lex(b, a) <==> a == b
  {
    if a != "" && b != "" && a[0] == b[0] {
      LexTrichotomy(a[1..], b[1..]);
      assert a == [a[0]] + a[1..] && b == [b[0]] + b[1..];
    } else if a == b {
      assert a == "" && b == "";
    }
  }

  lemma {:induction false} LexTransitive(a: string, b: string, c: string)
    ensures Lex(a, b) && Lex(b, c) ==> Lex(a, c)
  {
    if a != "" && b != "" && c != "" {
      LexTransitive(a[1..], b[1..], c[1..]);
    }
  }

  /** Smaller at the first character that differs, or a proper prefix. */
  ghost predicate LexAt(a: string, b: string, i: nat) {
    i <= |a| && i <= |b| && a[..i] == b[..i] && (if i < |a| then i < |b| && a[i] < b[i] else i < |b|)
  }

  lemma LexAtHeads(a: string, b: string, i: nat)
    requires LexAt(a, b, i) && i > 0
    ensures a != "" && b != "" && a[0] == b[0]
  {
    assert a[0] == a[..i][0] && b[0] == b[..i][0];
  }

  lemma {:induction false} LexIff(a: string, b: string)
    ensures Lex(a, b) <==> exists i: nat :: LexAt(a, b, i)
  {
    if a != "" && b != "" && a[0] == b[0] {
      LexIff(a[1..], b[1..]);
      if Lex(a, b) {
        var i: nat :| LexAt(a[1..], b[1..], i);
        assert a[..i + 1] == [a[0]] + a[1..][..i] && b[..i + 1] == [b[0]] + b[1..][..i];
        assert LexAt(a, b, i + 1);
      }
      if i: nat :| LexAt(a, b, i) {
        assert i > 0;
        assert a[1..][..i - 1] == a[..i][1..] && b[1..][..i - 1] == b[..i][1..];
        assert LexAt(a[1..], b[1..], i - 1);
      }
    } else {
      if Lex(a, b) {
        assert LexAt(a, b, 0);
      }
      if i: nat :| LexAt(a, b, i) {
        if i > 0 {
          LexAtHeads(a, b, i);
        }
      }
    }
  }
}
