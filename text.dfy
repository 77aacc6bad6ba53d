/**
 * String and number primitives of JavaScript and Python that the models use:
 * whitespace classes, trimming, lower-casing, substring search, splitting,
 * decimal printing, and the number parsers `parseFloat` and `parseInt`.
 * JavaScript numbers are modelled as exact reals plus NaN.
 */
module Text {
  import opened Wrappers

  /** A JavaScript number: a finite value or NaN. */
  datatype JsNum = Num(value: real) | NaN {
    /** JavaScript truthiness of a number: neither 0 nor NaN. */
    predicate Truthy() { Num? && value != 0.0 }
  }

  predicate IsDigit(c: char) { '0' <= c <= '9' }

  predicate IsHexDigit(c: char) { IsDigit(c) || 'a' <= c <= 'f' || 'A' <= c <= 'F' }

  predicate IsLowerAlpha(c: char) { 'a' <= c <= 'z' }

  predicate AllDigits(s: string) { forall i :: 0 <= i < |s| ==> IsDigit(s[i]) }

  /** WhiteSpace and LineTerminator of ECMA-262: what `trim`, `\s` and `parseFloat` skip. */
  predicate IsJsSpace(c: char) {
    c == '\t' || c == '\n' || c == '\U{000B}' || c == '\U{000C}' || c == '\r' || c == ' '
    || c == '\U{00A0}' || c == '\U{1680}' || ('\U{2000}' <= c <= '\U{200A}')
    || c == '\U{2028}' || c == '\U{2029}' || c == '\U{202F}' || c == '\U{205F}'
    || c == '\U{3000}' || c == '\U{FEFF}'
  }

  /** The characters Python's `str.isspace` accepts: what `str.strip()` removes. */
  predicate IsPySpace(c: char) {
    c == '\t' || c == '\n' || c == '\U{000B}' || c == '\U{000C}' || c == '\r'
    || ('\U{001C}' <= c <= '\U{001F}') || c == ' ' || c == '\U{0085}' || c == '\U{00A0}'
    || c == '\U{1680}' || ('\U{2000}' <= c <= '\U{200A}') || c == '\U{2028}' || c == '\U{2029}'
    || c == '\U{202F}' || c == '\U{205F}' || c == '\U{3000}'
  }

  /** Drops the leading characters that satisfy `sp`. */
  function TrimStartBy(s: string, sp: char -> bool): (r: string)
    ensures |r| <= |s| && r == s[|s| - |r|..]
    ensures forall i :: 0 <= i < |s| - |r| ==> sp(s[i])
    ensures r != [] ==> !sp(r[0])
  {
    if s != [] && sp(s[0]) then
      var r := TrimStartBy(s[1..], sp);
      assert forall i :: 1 <= i < |s| ==> s[1..][i - 1] == s[i];
      r
    else s
  }

  /** Drops the trailing characters that satisfy `sp`. */
  function TrimEndBy(s: string, sp: char -> bool): (r: string)
    ensures |r| <= |s| && r == s[..|r|]
    ensures forall i :: |r| <= i < |s| ==> sp(s[i])
    ensures r != [] ==> !sp(r[|r| - 1])
  {
    if s != [] && sp(s[|s| - 1]) then
      var r := TrimEndBy(s[..|s| - 1], sp);
      assert forall i :: 0 <= i < |s| - 1 ==> s[..|s| - 1][i] == s[i];
      r
    else s
  }

  /** JavaScript `String.prototype.trim`. */
  function Trim(s: string): (r: string)
    ensures |r| <= |s|
    ensures r != [] ==> !IsJsSpace(r[0]) && !IsJsSpace(r[|r| - 1])
    ensures (forall i :: 0 <= i < |s| ==> !IsJsSpace(s[i])) ==> r == s
  {
    TrimEndBy(TrimStartBy(s, IsJsSpace), IsJsSpace)
  }

  /** `a || b || fallback` on optional texts. */
  function TextOr(a: Option<string>, b: Option<string>, fallback: string): (r: string)
    ensures a.Some? && a.value != "" ==> r == a.value
    ensures (a.None? || a.value == "") && b.Some? && b.value != "" ==> r == b.value
    ensures (a.None? || a.value == "") && (b.None? || b.value == "") ==> r == fallback
  {
    if a.Some? && a.value != "" then a.value else if b.Some? && b.value != "" then b.value else fallback
  }

  /** Python `str.strip()` with no argument. */
  function PyStrip(s: string): (r: string)
    ensures |r| <= |s|
    ensures r != [] ==> !IsPySpace(r[0]) && !IsPySpace(r[|r| - 1])
  {
    TrimEndBy(TrimStartBy(s, IsPySpace), IsPySpace)
  }

  /**
   * Lower-casing of one character as `toLowerCase` does it for ASCII and
   * Latin-1 letters (U+00C0..U+00DE except U+00D7).
   */
  function LowerChar(c: char): char {
    if 'A' <= c <= 'Z' || ('\U{00C0}' <= c <= '\U{00DE}' && c != '\U{00D7}') then (c as int + 32) as char else c
  }

  function ToLower(s: string): (r: string)
    ensures |r| == |s| && forall i :: 0 <= i < |s| ==> r[i] == LowerChar(s[i])
  {
    seq(|s|, i requires 0 <= i < |s| => LowerChar(s[i]))
  }

  predicate OccursAt(s: string, sub: string, i: int) {
    0 <= i && i + |sub| <= |s| && s[i..i + |sub|] == sub
  }

  /** `s.includes(sub)` in JavaScript, `sub in s` in Python. */
  predicate Contains(s: string, sub: string) {
    exists i :: 0 <= i <= |s| - |sub| && OccursAt(s, sub, i)
  }

  /** A text that lacks the first character of `sub` does not contain `sub`. */
  lemma AbsentHead(s: string, sub: string)
    requires sub != [] && sub[0] !in s
    ensures !Contains(s, sub)
  {
    forall i | 0 <= i <= |s| - |sub|
      ensures !OccursAt(s, sub, i)
    {
      assert s[i..i + |sub|][0] == s[i];
    }
  }

  /** `sub` matches `s` at position `i` from its `k`-th character on, compared one character at a time. */
  predicate MatchesFrom(s: string, sub: string, i: nat, k: nat)
    requires i + |sub| <= |s|
    decreases |sub| - k
  {
    k >= |sub| || (s[i + k] == sub[k] && MatchesFrom(s, sub, i, k + 1))
  }

  /** No position from `i` on holds `sub`, checked one position at a time. */
  predicate AbsentFrom(s: string, sub: string, i: nat)
    decreases |s| - i
  {
    i + |sub| > |s| || (!MatchesFrom(s, sub, i, 0) && AbsentFrom(s, sub, i + 1))
  }

  lemma {:induction false} MatchesFromSlice(s: string, sub: string, i: nat, k: nat)
    requires i + |sub| <= |s| && k <= |sub|
    requires s[i + k..i + |sub|] == sub[k..]
    ensures MatchesFrom(s, sub, i, k)
    decreases |sub| - k
  {
    if k < |sub| {
      assert s[i + k] == s[i + k..i + |sub|][0];
      assert s[i + k + 1..i + |sub|] == s[i + k..i + |sub|][1..];
      MatchesFromSlice(s, sub, i, k + 1);
    }
  }

  /** The position-by-position check decides containment. */
  lemma {:induction false} AbsentFromNotContains(s: string, sub: string, i: nat)
    requires AbsentFrom(s, sub, i)
    ensures forall j :: i <= j <= |s| - |sub| ==> !OccursAt(s, sub, j)
    decreases |s| - i
  {
    if i + |sub| <= |s| {
      if OccursAt(s, sub, i) {
        MatchesFromSlice(s, sub, i, 0);
      }
      AbsentFromNotContains(s, sub, i + 1);
    }
  }

  predicate StartsWith(s: string, prefix: string) {
    |prefix| <= |s| && s[..|prefix|] == prefix
  }

  predicate EndsWith(s: string, suffix: string) {
    |suffix| <= |s| && s[|s| - |suffix|..] == suffix
  }

  /** The characters of `s` that satisfy `keep`, in order. */
  function FilterChars(s: string, keep: char -> bool): (r: string)
    ensures |r| <= |s|
    ensures forall i :: 0 <= i < |r| ==> keep(r[i])
    ensures (forall i :: 0 <= i < |s| ==> keep(s[i])) ==> r == s
  {
    if s == [] then [] else (if keep(s[0]) then [s[0]] else []) + FilterChars(s[1..], keep)
  }

  lemma {:induction false} FilterCharsAppend(a: string, b: string, keep: char -> bool)
    ensures FilterChars(a + b, keep) == FilterChars(a, keep) + FilterChars(b, keep)
  {
    if a == [] {
      assert a + b == b;
    } else {
      assert (a + b)[0] == a[0] && (a + b)[1..] == a[1..] + b;
      FilterCharsAppend(a[1..], b, keep);
    }
  }

  /** The parts joined back with the separator: the inverse of `Split`. */
  function Join(parts: seq<string>, sep: char): string
  {
    if parts == [] then ""
    else if |parts| == 1 then parts[0]
    else parts[0] + [sep] + Join(parts[1..], sep)
  }

  function CountChar(s: string, c: char): nat
  {
    if s == [] then 0 else (if s[0] == c then 1 else 0) + CountChar(s[1..], c)
  }

  /** `s.split(sep)` with a one-character separator, JavaScript and Python alike. */
  function Split(s: string, sep: char): (parts: seq<string>)
    ensures |parts| == 1 + CountChar(s, sep)
  {
    if s == [] then [""]
    else
      var rest := Split(s[1..], sep);
      if s[0] == sep then [""] + rest else [[s[0]] + rest[0]] + rest[1..]
  }

  /** The parts hold no separator, and joining them back with it gives the text: `Join` undoes `Split`. */
  lemma {:induction false} SplitJoin(s: string, sep: char)
    ensures var parts := Split(s, sep);
      (forall i :: 0 <= i < |parts| ==> sep !in parts[i]) && Join(parts, sep) == s
  {
    if s != [] {
      var rest := Split(s[1..], sep);
      SplitJoin(s[1..], sep);
      if s[0] == sep {
        assert ([""] + rest)[1..] == rest;
      } else {
        var parts := [[s[0]] + rest[0]] + rest[1..];
        assert parts[1..] == rest[1..];
        assert |rest| > 1 ==> Join(rest, sep) == rest[0] + [sep] + Join(rest[1..], sep);
      }
    }
  }

  /** A text with no separator splits into itself alone. */
  lemma {:induction false} SplitNone(a: string, sep: char)
    requires sep !in a
    ensures Split(a, sep) == [a]
  {
    if a != [] {
      SplitNone(a[1..], sep);
      assert [a[0]] + a[1..] == a;
    }
  }

  /** Splitting at a first separator peels off the text before it. */
  lemma {:induction false} SplitAt(a: string, rest: string, sep: char)
    requires sep !in a
    ensures Split(a + [sep] + rest, sep) == [a] + Split(rest, sep)
  {
    var s := a + [sep] + rest;
    if a == [] {
      assert s[0] == sep && s[1..] == rest;
    } else {
      assert s[0] == a[0] && s[1..] == a[1..] + [sep] + rest;
      SplitAt(a[1..], rest, sep);
      assert [a[0]] + a[1..] == a;
    }
  }

  /** Splitting a join of separator-free parts gives the parts back: `Split` undoes `Join`. */
  lemma {:induction false} JoinSplit(parts: seq<string>, sep: char)
    requires parts != []
    requires forall i :: 0 <= i < |parts| ==> sep !in parts[i]
    ensures Split(Join(parts, sep), sep) == parts
  {
    if |parts| == 1 {
      SplitNone(parts[0], sep);
    } else {
      JoinSplit(parts[1..], sep);
      SplitAt(parts[0], Join(parts[1..], sep), sep);
      assert [parts[0]] + parts[1..] == parts;
    }
  }

  /** The first part of a split is the text before the first separator. */
  lemma {:induction false} SplitHead(a: string, rest: string, sep: char)
    requires sep !in a
    ensures Split(a + [sep] + rest, sep)[0] == a
  {
    var s := a + [sep] + rest;
    if a == [] {
      assert s[0] == sep;
    } else {
      assert s[0] == a[0] && s[1..] == a[1..] + [sep] + rest;
      SplitHead(a[1..], rest, sep);
      assert [a[0]] + a[1..] == a;
    }
  }

  function DigitVal(c: char): nat
    requires IsDigit(c)
  {
    c as int - '0' as int
  }

  function HexDigitVal(c: char): nat
    requires IsHexDigit(c)
  {
    if IsDigit(c) then c as int - '0' as int
    else if 'a' <= c <= 'f' then c as int - 'a' as int + 10
    else c as int - 'A' as int + 10
  }

  /** The value of a string of decimal digits. */
  function DigitsValue(ds: string): nat
    requires AllDigits(ds)
  {
    if ds == [] then 0 else DigitsValue(ds[..|ds| - 1]) * 10 + DigitVal(ds[|ds| - 1])
  }

  /** The value of a string of hexadecimal digits. */
  function HexValue(ds: string): nat
    requires forall i :: 0 <= i < |ds| ==> IsHexDigit(ds[i])
  {
    if ds == [] then 0 else HexValue(ds[..|ds| - 1]) * 16 + HexDigitVal(ds[|ds| - 1])
  }

  function DigitChar(d: nat): (c: char)
    requires d < 10
    ensures IsDigit(c) && DigitVal(c) == d
  {
    ('0' as int + d) as char
  }

  /** Decimal text of a natural number (`String(n)`, `str(n)`, `${n}`). */
  function NatToString(n: nat): (r: string)
    ensures |r| >= 1 && AllDigits(r)
    ensures DigitsValue(r) == n
    ensures r[0] == '0' ==> n == 0
  {
    if n < 10 then [DigitChar(n)]
    else
      var r := NatToString(n / 10) + [DigitChar(n % 10)];
      assert r[..|r| - 1] == NatToString(n / 10);
      r
  }

  function Pow10(n: nat): (r: nat)
    ensures r >= 1
  {
    if n == 0 then 1 else 10 * Pow10(n - 1)
  }

  /** Length of the longest prefix of `s` whose characters satisfy `p`. */
  function RunLength(s: string, p: char -> bool): (n: nat)
    ensures n <= |s|
    ensures forall i :: 0 <= i < n ==> p(s[i])
    ensures n < |s| ==> !p(s[n])
  {
    if s != [] && p(s[0]) then 1 + RunLength(s[1..], p) else 0
  }

  /** The index of the first element of `s` that satisfies `p`, if any. */
  function FirstWhere<T>(s: seq<T>, p: T -> bool): (r: Option<nat>)
    ensures r.None? <==> forall i :: 0 <= i < |s| ==> !p(s[i])
    ensures r.Some? ==> r.value < |s| && p(s[r.value]) && forall j :: 0 <= j < r.value ==> !p(s[j])
  {
    if s == [] then None
    else if p(s[0]) then Some(0)
    else
      var rest := FirstWhere(s[1..], p);
      if rest.None? then None else Some(rest.value + 1)
  }

  /** The value of the maximal run of decimal digits at the start of `s` (0 when empty). */
  function LeadingDecimal(s: string): nat
  {
    var k := RunLength(s, IsDigit);
    DigitsValue(s[..k])
  }

  /** The value of the maximal run of hexadecimal digits at the start of `s`. */
  function LeadingHex(s: string): nat
  {
    var k := RunLength(s, IsHexDigit);
    HexValue(s[..k])
  }

  function Signed(neg: bool, m: real): JsNum
  {
    Num(if neg then -m else m)
  }

  /** An optional leading `+` or `-`: whether it was `-`, and the rest. */
  function SignOf(t: string): (bool, string)
  {
    if t != [] && (t[0] == '+' || t[0] == '-') then (t[0] == '-', t[1..]) else (false, t)
  }

  /** The exponent part `e[+-]digits` at the start of `s`, or 0 when there is none. */
  function ExponentValue(s: string): int
  {
    if |s| >= 2 && (s[0] == 'e' || s[0] == 'E') then
      var (neg, ds) := SignOf(s[1..]);
      if neg then -(LeadingDecimal(ds) as int) else LeadingDecimal(ds)
    else 0
  }

  /**
   * JavaScript `parseFloat`: skips leading white space and reads the longest
   * prefix that is a decimal literal (sign, digits, fraction, exponent); NaN
   * when there is none.
   */
  function ParseFloat(s: string): JsNum
  {
    var (neg, body) := SignOf(TrimStartBy(s, IsJsSpace));
    var magnitude := UnsignedDecimal(body);
    if magnitude.None? then NaN else Signed(neg, magnitude.value)
  }

  /**
   * The value of the longest unsigned decimal literal at the start of `body`
   * (digits, fraction, exponent), or None when it starts with no digit.
   */
  function UnsignedDecimal(body: string): (r: Option<real>)
    ensures r.Some? ==> r.value >= 0.0
  {
    var n1 := RunLength(body, IsDigit);
    var rest := body[n1..];
    if n1 + RunLength(Fraction(rest), IsDigit) == 0 then None
    else Some(DecimalValue(LeadingDecimal(body), Fraction(rest), ExponentText(rest)))
  }

  /** The value of integer digits worth `whole`, the fraction digits at the start of `frac`, and the exponent in `exp`. */
  function DecimalValue(whole: nat, frac: string, exp: string): (r: real)
    ensures r >= 0.0
  {
    var fraction := LeadingDecimal(frac) as real / Pow10(RunLength(frac, IsDigit)) as real;
    NonNegativeQuotient(LeadingDecimal(frac) as real, Pow10(RunLength(frac, IsDigit)) as real);
    ScaleNonNegative(whole as real + fraction, ExponentValue(exp));
    Scale(whole as real + fraction, ExponentValue(exp))
  }

  /** With no fraction digits and no exponent, the value is the integer part. */
  lemma DecimalValueWhole(whole: nat, frac: string, exp: string)
    requires |frac| == 0 && |exp| == 0
    ensures DecimalValue(whole, frac, exp) == whole as real
  {
    assert RunLength(frac, IsDigit) == 0;
    assert LeadingDecimal(frac) == 0 by {
      assert frac[..0] == frac;
    }
    NoExponent(exp);
  }

  lemma NonNegativeQuotient(a: real, b: real)
    requires a >= 0.0 && b > 0.0
    ensures a / b >= 0.0
  {
  }

  lemma ScaleNonNegative(m: real, e: int)
    requires m >= 0.0
    ensures Scale(m, e) >= 0.0
  {
    if e < 0 {
      NonNegativeQuotient(m, Pow10(-e) as real);
    }
  }

  /** The text after a leading `.`, or nothing when `rest` does not start with one. */
  function Fraction(rest: string): string
  {
    if rest != [] && rest[0] == '.' then rest[1..] else []
  }

  /** What follows the integer digits and the fraction: where an exponent may start. */
  function ExponentText(rest: string): string
  {
    if rest != [] && rest[0] == '.' then rest[1..][RunLength(rest[1..], IsDigit)..] else rest
  }

  /** `m` times ten to the power `e`. */
  function Scale(m: real, e: int): real
  {
    if e >= 0 then m * Pow10(e) as real else m / Pow10(-e) as real
  }

  /**
   * JavaScript `parseInt` without a radix: skips leading white space, reads a
   * sign, then hexadecimal digits after `0x`/`0X` or decimal digits; NaN when
   * no digit follows.
   */
  function ParseInt(s: string): JsNum
  {
    var (neg, body) := SignOf(TrimStartBy(s, IsJsSpace));
    if |body| >= 2 && body[0] == '0' && (body[1] == 'x' || body[1] == 'X') then
      if RunLength(body[2..], IsHexDigit) == 0 then NaN else Signed(neg, LeadingHex(body[2..]) as real)
    else
      if RunLength(body, IsDigit) == 0 then NaN else Signed(neg, LeadingDecimal(body) as real)
  }

  /** On a non-empty string of decimal digits, `parseFloat` reads the whole string. */
  lemma ParseFloatOfDigits(ds: string)
    requires ds != [] && AllDigits(ds)
    ensures ParseFloat(ds) == Num(DigitsValue(ds) as real)
  {
    ParseFloatOfUnsigned(ds);
    UnsignedDecimalOfDigits(ds);
  }

  /** On a non-empty string of decimal digits, `parseInt` reads the whole string. */
  lemma ParseIntOfDigits(ds: string)
    requires ds != [] && AllDigits(ds)
    ensures ParseInt(ds) == Num(DigitsValue(ds) as real)
  {
    assert SignOf(TrimStartBy(ds, IsJsSpace)) == (false, ds) by {
      DigitIsNotSpace(ds[0]);
    }
    assert !(|ds| >= 2 && ds[0] == '0' && (ds[1] == 'x' || ds[1] == 'X')) by {
      if |ds| >= 2 {
        assert IsDigit(ds[1]);
      }
    }
    RunLengthAll(ds, IsDigit);
    assert LeadingDecimal(ds) == DigitsValue(ds) by {
      assert ds[..|ds|] == ds;
    }
  }

  /** A text starting with a digit or a dot has no white space or sign to skip. */
  lemma ParseFloatOfUnsigned(s: string)
    requires s != [] && (IsDigit(s[0]) || s[0] == '.')
    ensures ParseFloat(s) == if UnsignedDecimal(s).None? then NaN else Num(UnsignedDecimal(s).value)
  {
    assert SignOf(TrimStartBy(s, IsJsSpace)) == (false, s) by {
      DigitIsNotSpace(s[0]);
    }
  }

  /** A digit string with nothing after it reads as its value. */
  lemma UnsignedDecimalOfDigits(ds: string)
    requires ds != [] && AllDigits(ds)
    ensures UnsignedDecimal(ds) == Some(DigitsValue(ds) as real)
  {
    RunLengthAll(ds, IsDigit);
    assert LeadingDecimal(ds) == DigitsValue(ds) by {
      assert ds[..|ds|] == ds;
    }
    UnsignedDecimalOfRun(ds);
  }

  /** A text that is one run of digits reads as the value of that run. */
  lemma UnsignedDecimalOfRun(body: string)
    requires body != [] && RunLength(body, IsDigit) == |body|
    ensures UnsignedDecimal(body) == Some(LeadingDecimal(body) as real)
  {
    var rest := body[|body|..];
    assert |Fraction(rest)| == 0 && |ExponentText(rest)| == 0;
    DecimalValueWhole(LeadingDecimal(body), Fraction(rest), ExponentText(rest));
  }

  /** A text too short to hold an exponent has exponent 0. */
  lemma NoExponent(s: string)
    requires |s| < 2
    ensures ExponentValue(s) == 0
  {
  }

  lemma DigitIsNotSpace(c: char)
    requires IsDigit(c) || c == '.'
    ensures !IsJsSpace(c)
  {
  }

  lemma {:induction false} RunLengthAll(s: string, p: char -> bool)
    requires forall i :: 0 <= i < |s| ==> p(s[i])
    ensures RunLength(s, p) == |s|
  {
    if s != [] { RunLengthAll(s[1..], p); }
  }
}
