/**
 * String handling the backend relies on: JavaScript's trim, Number() on decimal
 * text and split("|"), PostgreSQL's integer input and ILIKE matching, and the
 * character order used for ORDER BY on names.
 */
module Text {
  import opened Common

  // ---------------------------------------------------------------------------
  // Whitespace and trimming
  // ---------------------------------------------------------------------------

  /** ECMAScript WhiteSpace and LineTerminator: what String.prototype.trim removes. */
  predicate IsJsSpace(c: char) {
    || c == '\t' || c == '\n' || c == '\U{000B}' || c == '\U{000C}' || c == '\r'
    || c == ' ' || c == '\U{00A0}' || c == '\U{1680}' || ('\U{2000}' <= c <= '\U{200A}')
    || c == '\U{2028}' || c == '\U{2029}' || c == '\U{202F}' || c == '\U{205F}'
    || c == '\U{3000}' || c == '\U{FEFF}'
  }

  /** The characters PostgreSQL's integer input skips around the digits (C isspace). */
  predicate IsPgSpace(c: char) {
    c == ' ' || c == '\t' || c == '\n' || c == '\r' || c == '\U{000B}' || c == '\U{000C}'
  }

  /** Drops the longest prefix of characters satisfying ws. */
  function TrimStartBy(s: string, ws: char -> bool): (r: string)
    ensures |r| <= |s| && r == s[|s| - |r|..]
    ensures forall i | 0 <= i < |s| - |r| :: ws(s[i])
    ensures r != [] ==> !ws(r[0]) && !ws(s[|s| - |r|])
    ensures |r| < |s| ==> ws(s[0])
  {
    if s != [] && ws(s[0]) then
      var r := TrimStartBy(s[1..], ws);
      assert s[|s| - |r|..] == s[1..][|s| - 1 - |r|..];
      assert forall i | 1 <= i < |s| - |r| :: s[i] == s[1..][i - 1];
      r
    else s
  }

  /** Drops the longest suffix of characters satisfying ws. */
  function TrimEndBy(s: string, ws: char -> bool): (r: string)
    ensures |r| <= |s| && r == s[..|r|]
    ensures forall i | |r| <= i < |s| :: ws(s[i])
    ensures r != [] ==> !ws(r[|r| - 1])
    ensures |r| < |s| ==> ws(s[|s| - 1])
  {
    if s != [] && ws(s[|s| - 1]) then TrimEndBy(s[..|s| - 1], ws) else s
  }

  function TrimBy(s: string, ws: char -> bool): string {
    TrimEndBy(TrimStartBy(s, ws), ws)
  }

  /** What TrimBy leaves neither starts nor ends with ws. */
  lemma TrimByEnds(s: string, ws: char -> bool)
    ensures var r := TrimBy(s, ws);
      r != [] ==> !ws(r[0]) && !ws(r[|r| - 1])
  {
    var t := TrimStartBy(s, ws);
    var r := TrimEndBy(t, ws);
    if r != [] { assert r[0] == t[0]; }
  }

  /** String.prototype.trim: s without its leading and trailing white space. */
  function Trim(s: string): string {
    TrimBy(s, IsJsSpace)
  }

  /** The trimmed text neither starts nor ends with white space. */
  lemma TrimEnds(s: string)
    ensures var r := Trim(s); r != [] ==> !IsJsSpace(r[0]) && !IsJsSpace(r[|r| - 1])
  {
    TrimByEnds(s, IsJsSpace);
  }

  lemma BlankTrimsEmpty(s: string)
    requires forall i | 0 <= i < |s| :: IsJsSpace(s[i])
    ensures Trim(s) == []
  {
    var t := TrimStartBy(s, IsJsSpace);
    assert t == [];
  }

  lemma EmptyTrimIsBlank(s: string)
    requires Trim(s) == []
    ensures forall i | 0 <= i < |s| :: IsJsSpace(s[i])
  {
    var t := TrimStartBy(s, IsJsSpace);
    var k := |s| - |t|;
    forall i | 0 <= i < |s| ensures IsJsSpace(s[i]) {
      if i >= k { assert s[i] == t[i - k]; }
    }
  }

  /** trim() yields the empty string exactly when the input is all whitespace. */
  lemma TrimEmptyIffBlank(s: string)
    ensures Trim(s) == [] <==> forall i | 0 <= i < |s| :: IsJsSpace(s[i])
  {
    if Trim(s) == [] {
      EmptyTrimIsBlank(s);
    } else if forall i | 0 <= i < |s| :: IsJsSpace(s[i]) {
      BlankTrimsEmpty(s);
    }
  }

  /** Trimming twice is trimming once. */
  lemma TrimIdempotent(s: string)
    ensures Trim(Trim(s)) == Trim(s)
  {
    var r := Trim(s);
    assert TrimStartBy(r, IsJsSpace) == r;
    assert TrimEndBy(r, IsJsSpace) == r;
  }

  // ---------------------------------------------------------------------------
  // Case-insensitive pattern matching (ILIKE)
  // ---------------------------------------------------------------------------

  /** ASCII lower-casing; the case folding ILIKE applies to each character. */
  function Lower(c: char): char {
    if 'A' <= c <= 'Z' then (c as int + 32) as char else c
  }

  /**
   * `t ILIKE p`: '%' matches any run of characters, '_' any single character,
   * a backslash makes the next pattern character literal; everything else
   * matches itself ignoring case.
   */
  predicate ILike(t: string, p: string)
    decreases |p|, |t|
  {
    if p == [] then t == []
    else if p[0] == '%' then ILike(t, p[1..]) || (t != [] && ILike(t[1..], p))
    else if t == [] then false
    else if p[0] == '_' then ILike(t[1..], p[1..])
    else if p[0] == '\\' && |p| > 1 then Lower(t[0]) == Lower(p[1]) && ILike(t[1..], p[2..])
    else Lower(t[0]) == Lower(p[0]) && ILike(t[1..], p[1..])
  }

  /** The pattern `%x%` the product search builds from a filter value x. */
  function SubstringPattern(x: string): string {
    "%" + x + "%"
  }

  predicate NoWildcards(x: string) {
    forall k | 0 <= k < |x| :: x[k] != '%' && x[k] != '_' && x[k] != '\\'
  }

  /** x occurs in t at position i, ignoring (ASCII) case. */
  predicate FoldEqAt(t: string, x: string, i: int) {
    0 <= i && i + |x| <= |t| && forall k | 0 <= k < |x| :: Lower(t[i + k]) == Lower(x[k])
  }

  /** x occurs in t, ignoring (ASCII) case. */
  predicate ContainsIgnoringCase(t: string, x: string) {
    exists i | 0 <= i <= |t| :: FoldEqAt(t, x, i)
  }

  lemma {:induction false} ILikeAnyRun(t: string)
    ensures ILike(t, "%")
    decreases |t|
  {
    if t != [] {
      ILikeAnyRun(t[1..]);
    }
  }

  lemma {:induction false} ILikePrefix(t: string, x: string)
    requires NoWildcards(x)
    ensures ILike(t, x + "%") <==> FoldEqAt(t, x, 0)
    decreases |x|
  {
    if x == [] {
      assert x + "%" == "%";
      ILikeAnyRun(t);
    } else {
      var p := x + "%";
      assert p[0] == x[0] && p[1..] == x[1..] + "%";
      if t != [] {
        ILikePrefix(t[1..], x[1..]);
        assert FoldEqAt(t, x, 0) <==> Lower(t[0]) == Lower(x[0]) && FoldEqAt(t[1..], x[1..], 0) by {
          if Lower(t[0]) == Lower(x[0]) && FoldEqAt(t[1..], x[1..], 0) {
            forall k | 0 <= k < |x| ensures Lower(t[k]) == Lower(x[k]) {
              if k > 0 { assert t[k] == t[1..][k - 1] && x[k] == x[1..][k - 1]; }
            }
          }
          if FoldEqAt(t, x, 0) {
            forall k | 0 <= k < |x| - 1 ensures Lower(t[1..][k]) == Lower(x[1..][k]) {
              assert t[1..][k] == t[k + 1] && x[1..][k] == x[k + 1];
            }
          }
        }
      }
    }
  }

  lemma FoldEqAtShift(t: string, x: string, i: int)
    requires 0 <= i <= |t|
    ensures FoldEqAt(t[i..], x, 0) <==> FoldEqAt(t, x, i)
  {
    assert forall k | 0 <= k < |t| - i :: t[i..][k] == t[i + k];
  }

  lemma {:induction false} ILikeLeadingRun(t: string, q: string)
    ensures ILike(t, "%" + q) <==> exists i | 0 <= i <= |t| :: ILike(t[i..], q)
    decreases |t|
  {
    var p := "%" + q;
    assert p[0] == '%' && p[1..] == q;
    assert t[0..] == t;
    if t != [] {
      ILikeLeadingRun(t[1..], q);
      if ILike(t[1..], p) {
        var i :| 0 <= i <= |t[1..]| && ILike(t[1..][i..], q);
        assert t[1..][i..] == t[i + 1..];
      }
      if exists i | 0 <= i <= |t| :: ILike(t[i..], q) {
        var i :| 0 <= i <= |t| && ILike(t[i..], q);
        if i > 0 {
          assert t[1..][i - 1..] == t[i..];
        }
      }
    }
  }

  /** Without wildcard characters in x, `t ILIKE '%x%'` means "t contains x, ignoring case". */
  lemma ILikeSubstring(t: string, x: string)
    requires NoWildcards(x)
    ensures ILike(t, SubstringPattern(x)) <==> ContainsIgnoringCase(t, x)
  {
    assert SubstringPattern(x) == "%" + (x + "%");
    ILikeLeadingRun(t, x + "%");
    forall i | 0 <= i <= |t| ensures ILike(t[i..], x + "%") <==> FoldEqAt(t, x, i) {
      ILikePrefix(t[i..], x);
      FoldEqAtShift(t, x, i);
    }
  }

  // ---------------------------------------------------------------------------
  // split("|") and its inverse
  // ---------------------------------------------------------------------------

  /** String.prototype.split with a one-character separator. */
  function Split(s: string, sep: char): (parts: seq<string>)
    ensures |parts| >= 1
    ensures forall i | 0 <= i < |parts| :: sep !in parts[i]
  {
    if s == [] then [[]]
    else
      var rest := Split(s[1..], sep);
      if s[0] == sep then [[]] + rest else [[s[0]] + rest[0]] + rest[1..]
  }

  /** Array.prototype.join with a one-character separator. */
  function Join(parts: seq<string>, sep: char): string
    requires |parts| >= 1
  {
    if |parts| == 1 then parts[0] else parts[0] + [sep] + Join(parts[1..], sep)
  }

  lemma {:induction false} JoinSplit(s: string, sep: char)
    ensures Join(Split(s, sep), sep) == s
  {
    if s != [] {
      var rest := Split(s[1..], sep);
      JoinSplit(s[1..], sep);
      if s[0] == sep {
        var parts := [[]] + rest;
        assert parts[1..] == rest;
      } else {
        var parts := [[s[0]] + rest[0]] + rest[1..];
        if |rest| > 1 {
          assert parts[1..] == rest[1..];
          assert Join(rest, sep) == rest[0] + [sep] + Join(rest[1..], sep);
        }
      }
    }
  }

  lemma {:induction false} SplitPiece(a: string, b: string, sep: char)
    requires sep !in a
    ensures Split(a + [sep] + b, sep) == [a] + Split(b, sep)
    decreases |a|
  {
    if a == [] {
      assert a + [sep] + b == [sep] + b;
      assert ([sep] + b)[1..] == b;
    } else {
      SplitPiece(a[1..], b, sep);
      assert (a + [sep] + b)[1..] == a[1..] + [sep] + b;
      assert [a[0]] + a[1..] == a;
    }
  }

  lemma {:induction false} SplitWhole(a: string, sep: char)
    requires sep !in a
    ensures Split(a, sep) == [a]
    decreases |a|
  {
    if a != [] {
      SplitWhole(a[1..], sep);
      assert [a[0]] + a[1..] == a;
    }
  }

  /** Splitting a join of separator-free parts gives the parts back. */
  lemma {:induction false} SplitJoin(parts: seq<string>, sep: char)
    requires |parts| >= 1
    requires forall i | 0 <= i < |parts| :: sep !in parts[i]
    ensures Split(Join(parts, sep), sep) == parts
    decreases |parts|
  {
    if |parts| == 1 {
      SplitWhole(parts[0], sep);
    } else {
      SplitJoin(parts[1..], sep);
      SplitPiece(parts[0], Join(parts[1..], sep), sep);
      assert [parts[0]] + parts[1..] == parts;
    }
  }

  // ---------------------------------------------------------------------------
  // Number(text) and PostgreSQL integer input
  // ---------------------------------------------------------------------------

  predicate IsDigit(c: char) {
    '0' <= c <= '9'
  }

  predicate AllDigits(s: string) {
    forall i | 0 <= i < |s| :: IsDigit(s[i])
  }

  /** The value of a string of decimal digits (0 for the empty string). */
  function DigitsValue(s: string): nat
    requires AllDigits(s)
  {
    if s == [] then 0 else DigitsValue(s[..|s| - 1]) * 10 + (s[|s| - 1] as int - '0' as int)
  }

  function Pow10(n: nat): (r: nat)
    ensures r > 0
  {
    if n == 0 then 1 else 10 * Pow10(n - 1)
  }

  /** The position of the first c in s. */
  function FirstIndex(s: string, c: char): (k: nat)
    requires c in s
    ensures k < |s| && s[k] == c && c !in s[..k]
  {
    if s[0] == c then 0 else
      assert c in s[1..] by { var j :| 0 <= j < |s| && s[j] == c; assert s[1..][j - 1] == c; }
      var k := FirstIndex(s[1..], c);
      assert s[..k + 1] == [s[0]] + s[1..][..k];
      k + 1
  }

  /** The value of `digits` or `digits.digits` (either side may be empty, not both). */
  function UnsignedDecimal(s: string): Option<real> {
    if '.' !in s then
      if s != [] && AllDigits(s) then Some(DigitsValue(s) as real) else None
    else
      var k := FirstIndex(s, '.');
      var whole, fraction := s[..k], s[k + 1..];
      if AllDigits(whole) && AllDigits(fraction) && |whole| + |fraction| > 0
      then Some(DigitsValue(whole) as real + DigitsValue(fraction) as real / Pow10(|fraction|) as real)
      else None
  }

  /** What JavaScript's Number() gives for a string. */
  datatype JsNumber = NaN | Num(value: real)

  /** Number(text) for decimal literals: surrounding whitespace ignored, blank text is 0. */
  function ToNumber(s: string): JsNumber {
    var t := Trim(s);
    if t == [] then Num(0.0)
    else if t[0] == '-' || t[0] == '+' then
      match UnsignedDecimal(t[1..])
      case None => NaN
      case Some(x) => Num(if t[0] == '-' then -x else x)
    else
      match UnsignedDecimal(t)
      case None => NaN
      case Some(x) => Num(x)
  }

  /**
   * PostgreSQL's reading of text as an integer: optional surrounding spaces, an
   * optional sign, at least one digit, nothing else.
   */
  function PgInteger(s: string): Option<int> {
    var t := TrimBy(s, IsPgSpace);
    if t == [] then None
    else if t[0] == '-' || t[0] == '+' then
      if |t| > 1 && AllDigits(t[1..])
      then Some(if t[0] == '-' then -(DigitsValue(t[1..]) as int) else DigitsValue(t[1..]))
      else None
    else if AllDigits(t) then Some(DigitsValue(t)) else None
  }

  /** The decimal text of a natural number, as String() writes it. */
  function NatText(n: nat): (s: string)
    ensures s != [] && AllDigits(s)
  {
    if n < 10 then [('0' as int + n) as char] else NatText(n / 10) + [('0' as int + n % 10) as char]
  }

  lemma {:induction false} NatTextValue(n: nat)
    ensures DigitsValue(NatText(n)) == n
  {
    var s := NatText(n);
    if n >= 10 {
      NatTextValue(n / 10);
      assert s[..|s| - 1] == NatText(n / 10);
    } else {
      assert s[..0] == [];
    }
  }

  lemma {:induction false} TrimNoSpaces(s: string, ws: char -> bool)
    requires forall i | 0 <= i < |s| :: !ws(s[i])
    ensures TrimBy(s, ws) == s
  {
    var t := TrimStartBy(s, ws);
    assert t == s;
    var r := TrimEndBy(t, ws);
    assert r == t;
  }

  /** Number() reads back the decimal text of a natural number. */
  lemma NumberOfNatText(n: nat)
    ensures ToNumber(NatText(n)) == Num(n as real)
  {
    var s := NatText(n);
    forall i | 0 <= i < |s| ensures !IsJsSpace(s[i]) { assert IsDigit(s[i]); }
    TrimNoSpaces(s, IsJsSpace);
    NatTextValue(n);
    assert IsDigit(s[0]);
    assert forall k | 0 <= k < |s| :: s[k] != '.';
  }

  /** Number() reads back a minus sign followed by the decimal text of a natural number. */
  lemma NumberOfNegativeNatText(n: nat)
    ensures ToNumber("-" + NatText(n)) == Num(-(n as real))
  {
    var d := NatText(n);
    var s := "-" + d;
    forall i | 0 <= i < |s| ensures !IsJsSpace(s[i]) {
      if i > 0 { assert s[i] == d[i - 1]; assert IsDigit(d[i - 1]); }
    }
    TrimNoSpaces(s, IsJsSpace);
    assert s[1..] == d;
    NatTextValue(n);
    assert forall k | 0 <= k < |d| :: d[k] != '.' by {
      forall k | 0 <= k < |d| ensures d[k] != '.' { assert IsDigit(d[k]); }
    }
  }

  /** Number() of empty or all-white-space text is 0, not NaN. */
  lemma NumberOfBlank(s: string)
    requires forall i | 0 <= i < |s| :: IsJsSpace(s[i])
    ensures ToNumber(s) == Num(0.0)
  {
    BlankTrimsEmpty(s);
  }

  /** PostgreSQL refuses empty or all-white-space text as an integer. */
  lemma PgIntegerOfBlank(s: string)
    requires forall i | 0 <= i < |s| :: IsPgSpace(s[i])
    ensures PgInteger(s) == None
  {
  }

  /** PostgreSQL reads back the decimal text of a natural number. */
  lemma PgIntegerOfNatText(n: nat)
    ensures PgInteger(NatText(n)) == Some(n)
  {
    var s := NatText(n);
    forall i | 0 <= i < |s| ensures !IsPgSpace(s[i]) { assert IsDigit(s[i]); }
    TrimNoSpaces(s, IsPgSpace);
    NatTextValue(n);
    assert IsDigit(s[0]);
  }

  // ---------------------------------------------------------------------------
  // Suffixes and ordering
  // ---------------------------------------------------------------------------

  predicate EndsWith(s: string, suffix: string) {
    |suffix| <= |s| && s[|s| - |suffix|..] == suffix
  }

  /** Character-code lexicographic order on strings. */
  predicate LexLe(a: string, b: string) {
    a == [] || (b != [] && (a[0] < b[0] || (a[0] == b[0] && LexLe(a[1..], b[1..]))))
  }

  lemma {:induction false} LexLeTotal(a: string, b: string)
    ensures LexLe(a, b) || LexLe(b, a)
  {
    if a != [] && b != [] && a[0] == b[0] {
      LexLeTotal(a[1..], b[1..]);
    }
  }

  lemma {:induction false} LexLeTransitive(a: string, b: string, c: string)
    requires LexLe(a, b) && LexLe(b, c)
    ensures LexLe(a, c)
  {
    if a != [] && a[0] == b[0] && b[0] == c[0] {
      LexLeTransitive(a[1..], b[1..], c[1..]);
    }
  }

  /** LexLe is a total preorder, so it can drive a sort. */
  lemma LexLeIsTotalPreorder()
    ensures forall a, b :: LexLe(a, b) || LexLe(b, a)
    ensures forall a, b, c :: LexLe(a, b) && LexLe(b, c) ==> LexLe(a, c)
  {
    forall a, b ensures LexLe(a, b) || LexLe(b, a) { LexLeTotal(a, b); }
    forall a, b, c | LexLe(a, b) && LexLe(b, c) ensures LexLe(a, c) { LexLeTransitive(a, b, c); }
  }
}
