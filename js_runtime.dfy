/**
 * The fragment of JavaScript's value semantics that the launcher code relies
 * on: optional values for `null`/`undefined`, results for thrown TypeErrors,
 * the numbers produced by `parseInt`/`Number` (with NaN), and the string
 * built-ins `split`, `indexOf`, `endsWith`, `trim`, `toLowerCase`,
 * `substring`, `lastIndexOf`, `replace`, plus the leading-decimal reading of
 * `parseFloat`.
 */
module JsRuntime {

  datatype Option<+T> = None | Some(value: T) {
    function GetOr(default: T): T {
      match this
      case Some(v) => v
      case None => default
    }
  }

  datatype Result<+T, +E> = Ok(value: T) | Err(error: E)

  /** The TypeErrors the modelled code can raise. */
  datatype TypeError =
    | ReadOfUndefined   // a property or method read on `undefined`
    | NotAFunction      // a call of a property that holds no function

  /**
   * A JavaScript number as produced by `parseInt`/`Number`, or a property
   * that is absent from an object (`undefined`). Integers are unbounded here.
   */
  datatype JsNum = Num(n: int) | NaN | Undefined

  /** `a === b` */
  predicate StrictEq(a: JsNum, b: JsNum) {
    match (a, b)
    case (Num(x), Num(y)) => x == y
    case (Undefined, Undefined) => true
    case _ => false
  }

  /** `a > b`: every comparison with NaN or undefined is false. */
  predicate Gt(a: JsNum, b: JsNum) { a.Num? && b.Num? && a.n > b.n }

  /** `a < b` */
  predicate Lt(a: JsNum, b: JsNum) { a.Num? && b.Num? && a.n < b.n }

  /** `a >= b` */
  predicate Ge(a: JsNum, b: JsNum) { a.Num? && b.Num? && a.n >= b.n }

  // ---------------------------------------------------------------------
  // Characters and digits

  /**
   * The white space and line terminators that `trim`, `parseInt` and
   * `Number` skip: the ASCII ones, the byte-order mark, the line and
   * paragraph separators and every Unicode space separator.
   */
  predicate IsJsSpace(c: char) {
    c == ' ' || c == '\t' || c == '\n' || c == '\r' || c == '\U{000B}' || c == '\U{000C}'
    || c == '\U{00A0}' || c == '\U{FEFF}' || c == '\U{2028}' || c == '\U{2029}'
    || c == '\U{1680}' || ('\U{2000}' <= c <= '\U{200A}')
    || c == '\U{202F}' || c == '\U{205F}' || c == '\U{3000}'
  }

  /** Value of `c` as a digit in base `radix` (2, 8, 10 or 16), or -1. */
  function DigitValue(c: char, radix: nat): (d: int)
    ensures d < radix || d == -1
  {
    var v :=
      if '0' <= c <= '9' then (c as int) - ('0' as int)
      else if 'a' <= c <= 'f' then (c as int) - ('a' as int) + 10
      else if 'A' <= c <= 'F' then (c as int) - ('A' as int) + 10
      else -1;
    if v < radix then v else -1
  }

  predicate IsDigit(c: char) { '0' <= c <= '9' }

  predicate AllDigits(s: string, radix: nat) {
    forall k :: 0 <= k < |s| ==> DigitValue(s[k], radix) >= 0
  }

  /** Length of the longest prefix of `s` made of base-`radix` digits. */
  function DigitPrefixLength(s: string, radix: nat): (k: nat)
    ensures k <= |s|
    ensures AllDigits(s[..k], radix)
    ensures k < |s| ==> DigitValue(s[k], radix) < 0
  {
    if s == [] || DigitValue(s[0], radix) < 0 then 0
    else
      var k := 1 + DigitPrefixLength(s[1..], radix);
      assert s[..k] == [s[0]] + s[1..][..k - 1];
      k
  }

  /** The number written by the digits `s` in base `radix`, most significant first. */
  function DigitsValue(s: string, radix: nat): nat
    requires AllDigits(s, radix)
  {
    if s == [] then 0
    else DigitsValue(s[..|s| - 1], radix) * radix + DigitValue(s[|s| - 1], radix)
  }

  /** Drops the leading white space. */
  function TrimStart(s: string): (r: string)
    ensures |r| <= |s|
    ensures r != [] ==> !IsJsSpace(r[0])
  {
    if s != [] && IsJsSpace(s[0]) then TrimStart(s[1..]) else s
  }

  /** Drops the trailing white space. */
  function TrimEnd(s: string): (r: string)
    ensures |r| <= |s|
    ensures r != [] ==> !IsJsSpace(r[|r| - 1])
  {
    if s != [] && IsJsSpace(s[|s| - 1]) then TrimEnd(s[..|s| - 1]) else s
  }

  /** `s.trim()` */
  function Trim(s: string): string { TrimEnd(TrimStart(s)) }

  // ---------------------------------------------------------------------
  // Numbers from strings

  /**
   * `parseInt(s)` with no radix: leading white space and one sign are
   * skipped, a `0x`/`0X` prefix selects base 16, and the longest digit
   * prefix is read; none gives NaN.
   */
  function ParseInt(s: string): JsNum {
    var t := TrimStart(s);
    var negative := t != [] && t[0] == '-';
    var u := if t != [] && (t[0] == '-' || t[0] == '+') then t[1..] else t;
    var hex := |u| >= 2 && u[0] == '0' && (u[1] == 'x' || u[1] == 'X');
    var radix := if hex then 16 else 10;
    var body := if hex then u[2..] else u;
    var k := DigitPrefixLength(body, radix);
    if k == 0 then NaN
    else
      var v: int := DigitsValue(body[..k], radix);
      Num(if negative then -v else v)
  }

  /** `parseInt(parts[i])` where a missing element is `undefined`, which reads as NaN. */
  function ParseIntAt(parts: seq<string>, i: nat): JsNum {
    if i < |parts| then ParseInt(parts[i]) else NaN
  }

  /**
   * `Number(s)` for a string (also the conversion behind `s == 1`): the
   * trimmed text must be empty (0), a `0x`/`0o`/`0b` literal, or a signed
   * run of decimal digits; anything else is NaN.
   */
  function StringToNumber(s: string): JsNum {
    var t := Trim(s);
    if t == [] then Num(0)
    else if HasRadixPrefix(t) then RadixLiteral(t)
    else SignedDecimal(t)
  }

  /** `t` starts with `0x`, `0o` or `0b` (either case) and has digits after it. */
  predicate HasRadixPrefix(t: string) {
    |t| > 2 && t[0] == '0' && t[1] in "xXoObB"
  }

  /** The value of a `0x`/`0o`/`0b` literal, with no sign allowed. */
  function RadixLiteral(t: string): JsNum
    requires HasRadixPrefix(t)
  {
    var radix := if t[1] in "xX" then 16 else if t[1] in "oO" then 8 else 2;
    var body := t[2..];
    if AllDigits(body, radix) then Num(DigitsValue(body, radix)) else NaN
  }

  /** The value of an optionally signed run of decimal digits, else NaN. */
  function SignedDecimal(t: string): JsNum
    requires t != []
  {
    var negative := t[0] == '-';
    var u := if t[0] == '-' || t[0] == '+' then t[1..] else t;
    if u != [] && AllDigits(u, 10) then
      var v: int := DigitsValue(u, 10);
      Num(if negative then -v else v)
    else NaN
  }

  /** `Number(parts[i])` where a missing element is `undefined`, which is NaN. */
  function StringToNumberAt(parts: seq<string>, i: nat): JsNum {
    if i < |parts| then StringToNumber(parts[i]) else Undefined
  }

  /** Decimal digits of a natural number, most significant first. */
  function NatToString(n: nat): (s: string)
    ensures s != [] && AllDigits(s, 10)
    ensures forall k :: 0 <= k < |s| ==> IsDigit(s[k])
    decreases n
  {
    var d := ['0' + (n % 10) as char];
    if n < 10 then d else NatToString(n / 10) + d
  }

  lemma {:induction false} NatToStringValue(n: nat)
    ensures DigitsValue(NatToString(n), 10) == n
    decreases n
  {
    var s := NatToString(n);
    assert DigitValue(s[|s| - 1], 10) == n % 10;
    if n >= 10 {
      assert s[..|s| - 1] == NatToString(n / 10);
      NatToStringValue(n / 10);
    }
  }

  /** Decimal digits carry no `0x` prefix: the second character is a digit. */
  lemma NatToStringNoRadixPrefix(n: nat)
    ensures |NatToString(n)| >= 2 ==> NatToString(n)[1] !in "xXoObB"
  {
    var s := NatToString(n);
    if |s| >= 2 { assert IsDigit(s[1]); }
  }

  lemma {:induction false} DigitPrefixOfAllDigits(s: string, radix: nat)
    requires AllDigits(s, radix)
    ensures DigitPrefixLength(s, radix) == |s|
    decreases |s|
  {
    if s != [] {
      DigitPrefixOfAllDigits(s[1..], radix);
    }
  }

  /** `parseInt` reads back what `NatToString` writes. */
  lemma ParseIntNatToString(n: nat)
    ensures ParseInt(NatToString(n)) == Num(n)
  {
    var s := NatToString(n);
    assert IsDigit(s[0]);
    assert TrimStart(s) == s;
    NatToStringNoRadixPrefix(n);
    DigitPrefixOfAllDigits(s, 10);
    assert s[..|s|] == s;
    NatToStringValue(n);
  }

  lemma TrimUnspaced(s: string)
    requires s != [] && !IsJsSpace(s[0]) && !IsJsSpace(s[|s| - 1])
    ensures Trim(s) == s
  {
    assert TrimStart(s) == s;
  }

  /** `Number` of a run of decimal digits is its value. */
  lemma StringToNumberOfDigits(s: string)
    requires s != [] && forall k :: 0 <= k < |s| ==> IsDigit(s[k])
    ensures AllDigits(s, 10) && StringToNumber(s) == Num(DigitsValue(s, 10))
  {
    assert IsDigit(s[0]) && IsDigit(s[|s| - 1]);
    TrimUnspaced(s);
    assert !HasRadixPrefix(s) by {
      if |s| > 2 { assert IsDigit(s[1]); }
    }
    assert s[0] != '-' && s[0] != '+';
  }

  /** `Number` reads back what `NatToString` writes. */
  lemma StringToNumberNatToString(n: nat)
    ensures StringToNumber(NatToString(n)) == Num(n)
  {
    StringToNumberOfDigits(NatToString(n));
    NatToStringValue(n);
  }

  // ---------------------------------------------------------------------
  // Searching in strings

  /** `sub` occurs in `s` at index `k`. */
  predicate OccursAt(s: string, sub: string, k: int) {
    0 <= k && k + |sub| <= |s| && s[k..k + |sub|] == sub
  }

  function IndexOfFrom(s: string, sub: string, from: nat): (i: int)
    requires from <= |s|
    ensures i == -1 || (from <= i && OccursAt(s, sub, i))
    ensures i == -1 ==> forall k :: from <= k <= |s| ==> !OccursAt(s, sub, k)
    ensures i != -1 ==> forall k :: from <= k < i ==> !OccursAt(s, sub, k)
    decreases |s| - from
  {
    if OccursAt(s, sub, from) then from
    else if from == |s| then -1
    else IndexOfFrom(s, sub, from + 1)
  }

  /** `s.indexOf(sub)`: the first index where `sub` occurs, or -1. */
  function IndexOf(s: string, sub: string): (i: int)
    ensures i == -1 || OccursAt(s, sub, i)
    ensures i == -1 <==> forall k :: 0 <= k <= |s| ==> !OccursAt(s, sub, k)
    ensures forall k :: 0 <= k < i ==> !OccursAt(s, sub, k)
  {
    IndexOfFrom(s, sub, 0)
  }

  /** `s.indexOf(sub) > -1`, which is also `s.lastIndexOf(sub) > -1`. */
  predicate Contains(s: string, sub: string) {
    IndexOf(s, sub) != -1
  }

  lemma ContainsWitness(s: string, sub: string, k: int)
    requires OccursAt(s, sub, k)
    ensures Contains(s, sub)
  {
  }

  /** `s.endsWith(suffix)` */
  predicate EndsWith(s: string, suffix: string) {
    |suffix| <= |s| && s[|s| - |suffix|..] == suffix
  }

  /** The index of the last `c` in `s`, or -1. */
  function LastIndexOfChar(s: string, c: char): (i: int)
    ensures -1 <= i < |s|
    ensures i >= 0 ==> s[i] == c
    ensures forall k :: i < k < |s| ==> s[k] != c
  {
    if s == [] then -1
    else if s[|s| - 1] == c then |s| - 1
    else LastIndexOfChar(s[..|s| - 1], c)
  }

  /** `s.substring(s.lastIndexOf(c) + 1)`: the text after the last `c`, or all of `s`. */
  function AfterLast(s: string, c: char): (r: string)
    ensures c !in r
    ensures EndsWith(s, r)
    ensures r == s || (|r| < |s| && s[|s| - |r| - 1] == c)
  {
    s[LastIndexOfChar(s, c) + 1..]
  }

  /** `s.replace(a, b)` for a string pattern: only the first occurrence is replaced. */
  function ReplaceFirst(s: string, a: string, b: string): string {
    var i := IndexOf(s, a);
    if i == -1 then s else s[..i] + b + s[i + |a|..]
  }

  /** `s.toLowerCase()` on ASCII letters. */
  function ToLower(s: string): (r: string)
    ensures |r| == |s|
  {
    if s == [] then []
    else
      var c := s[0];
      [if 'A' <= c <= 'Z' then (c as int + 32) as char else c] + ToLower(s[1..])
  }

  // ---------------------------------------------------------------------
  // Splitting

  /** The first index of `c` in `s`, or -1. */
  function IndexOfChar(s: string, c: char): (i: int)
    ensures -1 <= i < |s|
    ensures i >= 0 ==> s[i] == c && c !in s[..i]
    ensures i == -1 <==> c !in s
  {
    if s == [] then -1
    else if s[0] == c then 0
    else
      var j := IndexOfChar(s[1..], c);
      if j == -1 then -1
      else
        assert s[..j + 1] == [s[0]] + s[1..][..j];
        j + 1
  }

  /** `s.split(sep)` for a one-character separator. */
  function Split(s: string, sep: char): (parts: seq<string>)
    ensures |parts| >= 1
    decreases |s|
  {
    var i := IndexOfChar(s, sep);
    if i == -1 then [s] else [s[..i]] + Split(s[i + 1..], sep)
  }

  lemma SplitWithoutSeparator(s: string, sep: char)
    requires sep !in s
    ensures Split(s, sep) == [s]
  {
  }

  /** `split` gives a second piece exactly when the separator occurs. */
  lemma SplitLength(s: string, sep: char)
    ensures |Split(s, sep)| >= 2 <==> sep in s
  {
  }

  /** Splitting `a + [sep] + b` yields `a`, then the pieces of `b`. */
  lemma SplitAtFirst(a: string, sep: char, b: string)
    requires sep !in a
    ensures Split(a + [sep] + b, sep) == [a] + Split(b, sep)
  {
    var s := a + [sep] + b;
    assert s[|a|] == sep;
    assert s[..|a|] == a;
    assert IndexOfChar(s, sep) == |a|;
    assert s[|a| + 1..] == b;
  }

  /** `parts.join(sep)` for a one-character separator. */
  function JoinWith(parts: seq<string>, sep: char): string
    requires |parts| >= 1
    decreases |parts|
  {
    if |parts| == 1 then parts[0] else parts[0] + [sep] + JoinWith(parts[1..], sep)
  }

  /** Splitting undoes joining when no part holds the separator. */
  lemma {:induction false} SplitJoin(parts: seq<string>, sep: char)
    requires |parts| >= 1
    requires forall k :: 0 <= k < |parts| ==> sep !in parts[k]
    ensures Split(JoinWith(parts, sep), sep) == parts
    decreases |parts|
  {
    if |parts| == 1 {
      SplitWithoutSeparator(parts[0], sep);
    } else {
      SplitAtFirst(parts[0], sep, JoinWith(parts[1..], sep));
      SplitJoin(parts[1..], sep);
      assert parts == [parts[0]] + parts[1..];
    }
  }

  /** A character in no part and distinct from the separator is not in the join. */
  lemma {:induction false} JoinWithout(parts: seq<string>, sep: char, c: char)
    requires |parts| >= 1 && c != sep
    requires forall k :: 0 <= k < |parts| ==> c !in parts[k]
    ensures c !in JoinWith(parts, sep)
    decreases |parts|
  {
    if |parts| > 1 {
      JoinWithout(parts[1..], sep, c);
    }
  }

  /** Splitting `a + [sep] + b` where neither part holds the separator. */
  lemma SplitPair(a: string, sep: char, b: string)
    requires sep !in a && sep !in b
    ensures Split(a + [sep] + b, sep) == [a, b]
  {
    SplitAtFirst(a, sep, b);
    SplitWithoutSeparator(b, sep);
  }

  /** A string of decimal digits holds no non-digit separator. */
  lemma DigitsHaveNoSeparator(s: string, c: char)
    requires forall k :: 0 <= k < |s| ==> IsDigit(s[k])
    requires !IsDigit(c)
    ensures c !in s
  {
  }

  // ---------------------------------------------------------------------
  // parseFloat

  /** A finite decimal `(-1)^negative * mantissa * 10^exponent`. */
  datatype Decimal = Decimal(negative: bool, mantissa: nat, exponent: int)

  function Pow10(e: nat): (p: nat)
    ensures p >= 1
  {
    if e == 0 then 1 else 10 * Pow10(e - 1)
  }

  /**
   * The finite decimal literal that `parseFloat(s)` reads from the start of
   * `s` (after white space): sign, integer digits, optional fraction,
   * optional exponent. None when `parseFloat` gives NaN or Infinity.
   */
  function LeadingDecimal(s: string): Option<Decimal> {
    var t := TrimStart(s);
    var negative := t != [] && t[0] == '-';
    var u := if t != [] && (t[0] == '-' || t[0] == '+') then t[1..] else t;
    var a := DigitPrefixLength(u, 10);
    var afterInt := u[a..];
    var hasDot := afterInt != [] && afterInt[0] == '.';
    var b := if hasDot then DigitPrefixLength(afterInt[1..], 10) else 0;
    var fraction := if hasDot then afterInt[1..][..b] else "";
    var rest := if hasDot then afterInt[1 + b..] else afterInt;
    if a == 0 && b == 0 then None
    else
      var e := ExponentPart(rest);
      Some(Decimal(negative, DigitsValue(u[..a] + fraction, 10), e - b))
  }

  /** The exponent that an `e`/`E` suffix adds, or 0 when there is no complete one. */
  function ExponentPart(rest: string): int {
    if rest != [] && (rest[0] == 'e' || rest[0] == 'E') then
      var r := rest[1..];
      var negative := r != [] && r[0] == '-';
      var v := if r != [] && (r[0] == '-' || r[0] == '+') then r[1..] else r;
      var c := DigitPrefixLength(v, 10);
      if c == 0 then 0
      else
        var x: int := DigitsValue(v[..c], 10);
        if negative then -x else x
    else 0
  }

  /** The decimal's value is exactly 1.8 = 18 * 10^-1. */
  predicate IsOnePointEight(d: Decimal) {
    !d.negative &&
    if d.exponent + 1 >= 0 then d.mantissa * Pow10(d.exponent + 1) == 18
    else d.mantissa == 18 * Pow10(-(d.exponent + 1))
  }

  /** `parseFloat(s) === 1.8`, with exact decimal arithmetic. */
  predicate ParseFloatIsOnePointEight(s: string) {
    var d := LeadingDecimal(s);
    d.Some? && IsOnePointEight(d.value)
  }

  /** Text that does not continue a number literal: no digit and no exponent next. */
  predicate EndsLiteral(rest: string) {
    rest == [] || (!IsDigit(rest[0]) && rest[0] != 'e' && rest[0] != 'E')
  }

  /** One digit in front of text that does not continue the number. */
  lemma OneDigitPrefix(d: char, rest: string)
    requires IsDigit(d) && EndsLiteral(rest)
    ensures DigitPrefixLength([d] + rest, 10) == 1
    ensures ([d] + rest)[1..] == rest
  {
    assert ([d] + rest)[1..] == rest;
    assert DigitPrefixLength(rest, 10) == 0;
  }

  /** After a literal, no exponent is read. */
  lemma NoExponent(rest: string)
    requires EndsLiteral(rest)
    ensures ExponentPart(rest) == 0
  {
  }

  /** The integer part `LeadingDecimal` cuts from `{d1}.{d2}{rest}`. */
  lemma IntegerPiece(d1: char, d2: char, rest: string)
    requires IsDigit(d1) && IsDigit(d2) && EndsLiteral(rest)
    ensures TrimStart([d1, '.', d2] + rest) == [d1, '.', d2] + rest
    ensures DigitPrefixLength([d1, '.', d2] + rest, 10) == 1
    ensures ([d1, '.', d2] + rest)[1..] == ['.', d2] + rest
  {
    assert !IsDigit('.') && EndsLiteral(['.', d2] + rest);
    OneDigitPrefix(d1, ['.', d2] + rest);
    assert [d1, '.', d2] + rest == [d1] + (['.', d2] + rest);
  }

  /** The fraction `LeadingDecimal` cuts from `.{d2}{rest}`. */
  lemma FractionPiece(d2: char, rest: string)
    requires IsDigit(d2) && EndsLiteral(rest)
    ensures DigitPrefixLength([d2] + rest, 10) == 1
    ensures (['.', d2] + rest)[1..] == [d2] + rest
    ensures (['.', d2] + rest)[2..] == rest
  {
    OneDigitPrefix(d2, rest);
    assert (['.', d2] + rest)[1..] == [d2] + rest;
  }

  /** `parseFloat` of `{d1}.{d2}` followed by text that ends the literal reads the decimal `d1 d2 * 10^-1`. */
  lemma LeadingDecimalOfTwoDigits(d1: char, d2: char, rest: string)
    requires IsDigit(d1) && IsDigit(d2) && EndsLiteral(rest)
    ensures LeadingDecimal([d1, '.', d2] + rest) == Some(Decimal(false, DigitsValue([d1, d2], 10), -1))
  {
    var s := [d1, '.', d2] + rest;
    IntegerPiece(d1, d2, rest);
    FractionPiece(d2, rest);
    NoExponent(rest);
    assert ([d2] + rest)[..1] == [d2];
    assert s[..1] + [d2] == [d1, d2];
  }

  /** `parseFloat` reads exactly 1.8 from `1.8` followed by anything that does not continue the number. */
  lemma ParseFloatOnePointEight(rest: string)
    requires EndsLiteral(rest)
    ensures ParseFloatIsOnePointEight("1.8" + rest)
  {
    LeadingDecimalOfTwoDigits('1', '8', rest);
    assert "1.8" + rest == ['1', '.', '8'] + rest;
    assert DigitsValue(['1', '8'], 10) == 18;
  }

  /** `parseFloat` of `1.7...` is 1.7, not 1.8. */
  lemma ParseFloatOnePointSeven(rest: string)
    requires EndsLiteral(rest)
    ensures !ParseFloatIsOnePointEight("1.7" + rest)
  {
    LeadingDecimalOfTwoDigits('1', '7', rest);
    assert "1.7" + rest == ['1', '.', '7'] + rest;
    assert DigitsValue(['1', '7'], 10) == 17;
  }

  /** The text after the last `c` of `a + [c] + b` is `b` when `b` has no `c`. */
  lemma AfterLastOf(a: string, c: char, b: string)
    requires c !in b
    ensures AfterLast(a + [c] + b, c) == b
  {
    var s := a + [c] + b;
    var i := LastIndexOfChar(s, c);
    assert s[|a|] == c;
    forall k | |a| < k < |s| ensures s[k] != c {
      assert s[k] == b[k - |a| - 1];
    }
    assert i == |a|;
    assert s[|a| + 1..] == b;
  }
}
