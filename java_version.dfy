/**
 * `JavaGuard.parseJavaRuntimeVersion`: a full Java runtime version string
 * is read with one of two grammars, chosen by its first dotted component.
 *
 *   legacy   1.{major}.0_{update}-b{build}      e.g. 1.8.0_152-b16
 *   modern   {major}.{minor}.{revision}+{build}  e.g. 10.0.2+13
 *
 * Fields are whatever `parseInt` makes of the pieces, so a missing or
 * non-numeric piece is NaN rather than an error; the only failure is the
 * legacy grammar reading `pts[1]` of a string without `-`.
 */
module JavaVersion {
  import opened JsRuntime
  import opened VersionUtil

  /** The object `parseJavaRuntimeVersion` returns, by grammar. */
  datatype Version =
    | Legacy(major: JsNum, update: JsNum, build: JsNum)
    | Modern(major: JsNum, minor: JsNum, revision: JsNum, build: JsNum)
  {
    /** `version.update`, absent (undefined) on a modern version. */
    function Update(): JsNum { if Legacy? then update else Undefined }
    /** `version.minor`, absent (undefined) on a legacy version. */
    function Minor(): JsNum { if Modern? then minor else Undefined }
    /** `version.revision`, absent (undefined) on a legacy version. */
    function Revision(): JsNum { if Modern? then revision else Undefined }
  }

  /** `s.substring(1)` */
  function DropFirst(s: string): string {
    if s == [] then [] else s[1..]
  }

  /** `_parseJavaRuntimeVersion_8`; reading `pts[1]` of a string without `-` throws. */
  function ParseLegacy(verString: string): Result<Version, TypeError> {
    var pts := Split(verString, '-');
    if |pts| < 2 then Err(ReadOfUndefined)
    else
      var build := ParseInt(DropFirst(pts[1]));
      var pre := Split(pts[0], '_');
      var update := ParseIntAt(pre, 1);
      var major := ParseIntAt(Split(pre[0], '.'), 1);
      Ok(Legacy(major, update, build))
  }

  /** `_parseJavaRuntimeVersion_9`; it never throws. */
  function ParseModern(verString: string): Version {
    var pts := Split(verString, '+');
    var build := ParseIntAt(pts, 1);
    var comps := Split(pts[0], '.');
    Modern(ParseIntAt(comps, 0), ParseIntAt(comps, 1), ParseIntAt(comps, 2), build)
  }

  /** The grammar test `verString.split('.')[0] == 1`, a loose comparison. */
  predicate IsLegacyForm(verString: string) {
    StringToNumber(Split(verString, '.')[0]) == Num(1)
  }

  /** `JavaGuard.parseJavaRuntimeVersion(verString)` */
  function Parse(verString: string): Result<Version, TypeError> {
    if IsLegacyForm(verString) then ParseLegacy(verString) else Ok(ParseModern(verString))
  }

  // ---------------------------------------------------------------------
  // What the parse does

  /** The parse fails exactly on a legacy-form string without `-`. */
  lemma ParseFailsExactly(verString: string)
    ensures Parse(verString).Err? <==> IsLegacyForm(verString) && '-' !in verString
  {
    SplitLength(verString, '-');
  }

  /** A string `1.{m}.0_{u}-b{b}` with decimal fields. */
  function FormatLegacy(m: nat, u: nat, b: nat): string {
    Dotted([1, m, 0]) + "_" + NatToString(u) + "-b" + NatToString(b)
  }

  /** A string `{x0}.{x1}.{x2}+{b}` with decimal fields. */
  function FormatModern(xs: seq<nat>, b: nat): string
    requires |xs| == 3
  {
    Dotted(xs) + "+" + NatToString(b)
  }

  /** The first dotted component of a string that starts with a dotted version. */
  lemma HeadOfDotted(xs: seq<nat>, rest: string)
    requires |xs| >= 2
    ensures Split(Dotted(xs) + rest, '.')[0] == NatToString(xs[0])
  {
    var ps := DecimalParts(xs);
    var tail := JoinWith(ps[1..], '.');
    DigitsHaveNoSeparator(NatToString(xs[0]), '.');
    assert Dotted(xs) + rest == NatToString(xs[0]) + ['.'] + (tail + rest);
    SplitAtFirst(NatToString(xs[0]), '.', tail + rest);
  }

  /** The pieces `1.{m}.0_{u}` and `b{b}` around the `-` of a legacy string. */
  lemma SplitLegacyAtDash(m: nat, u: nat, b: nat)
    ensures Split(FormatLegacy(m, u, b), '-') ==
      [Dotted([1, m, 0]) + "_" + NatToString(u), "b" + NatToString(b)]
  {
    var head := Dotted([1, m, 0]);
    var su, sb := NatToString(u), NatToString(b);
    DottedWithout([1, m, 0], '-');
    DigitsHaveNoSeparator(su, '-');
    DigitsHaveNoSeparator(sb, '-');
    assert FormatLegacy(m, u, b) == (head + "_" + su) + ['-'] + ("b" + sb);
    SplitPair(head + "_" + su, '-', "b" + sb);
  }

  /** The pieces `1.{m}.0` and `{u}` around the `_` of a legacy string. */
  lemma SplitLegacyAtUnderscore(m: nat, u: nat)
    ensures Split(Dotted([1, m, 0]) + "_" + NatToString(u), '_') ==
      [Dotted([1, m, 0]), NatToString(u)]
  {
    DottedWithout([1, m, 0], '_');
    DigitsHaveNoSeparator(NatToString(u), '_');
    assert Dotted([1, m, 0]) + "_" + NatToString(u) == Dotted([1, m, 0]) + ['_'] + NatToString(u);
    SplitPair(Dotted([1, m, 0]), '_', NatToString(u));
  }

  /** The legacy grammar alone reads back each field. */
  lemma ParseLegacyFields(m: nat, u: nat, b: nat)
    ensures ParseLegacy(FormatLegacy(m, u, b)) == Ok(Legacy(Num(m), Num(u), Num(b)))
  {
    SplitLegacyAtDash(m, u, b);
    assert DropFirst("b" + NatToString(b)) == NatToString(b);
    ParseIntNatToString(b);
    SplitLegacyAtUnderscore(m, u);
    ParseIntNatToString(u);
    SplitDotted([1, m, 0]);
    ParseIntNatToString(m);
  }

  /** A legacy string is recognised as one. */
  lemma FormatLegacyIsLegacyForm(m: nat, u: nat, b: nat)
    ensures IsLegacyForm(FormatLegacy(m, u, b))
  {
    var rest := "_" + NatToString(u) + "-b" + NatToString(b);
    assert FormatLegacy(m, u, b) == Dotted([1, m, 0]) + rest;
    HeadOfDotted([1, m, 0], rest);
    StringToNumberNatToString(1);
  }

  /** `parseJavaRuntimeVersion` reads back each field of `1.{m}.0_{u}-b{b}`. */
  lemma ParseLegacyRoundTrip(m: nat, u: nat, b: nat)
    ensures Parse(FormatLegacy(m, u, b)) == Ok(Legacy(Num(m), Num(u), Num(b)))
  {
    FormatLegacyIsLegacyForm(m, u, b);
    ParseLegacyFields(m, u, b);
  }

  /** The modern grammar alone reads back each field. */
  lemma ParseModernFields(xs: seq<nat>, b: nat)
    requires |xs| == 3
    ensures ParseModern(FormatModern(xs, b)) == Modern(Num(xs[0]), Num(xs[1]), Num(xs[2]), Num(b))
  {
    var sb := NatToString(b);
    DottedWithout(xs, '+');
    DigitsHaveNoSeparator(sb, '+');
    assert FormatModern(xs, b) == Dotted(xs) + ['+'] + sb;
    SplitPair(Dotted(xs), '+', sb);
    ParseIntNatToString(b);
    SplitDotted(xs);
    ParseIntNatToString(xs[0]);
    ParseIntNatToString(xs[1]);
    ParseIntNatToString(xs[2]);
  }

  /** A modern string whose major is not 1 is not mistaken for a legacy one. */
  lemma FormatModernIsModernForm(xs: seq<nat>, b: nat)
    requires |xs| == 3 && xs[0] != 1
    ensures !IsLegacyForm(FormatModern(xs, b))
  {
    var rest := "+" + NatToString(b);
    assert FormatModern(xs, b) == Dotted(xs) + rest;
    HeadOfDotted(xs, rest);
    StringToNumberNatToString(xs[0]);
  }

  /** `parseJavaRuntimeVersion` reads back each field of `{x0}.{x1}.{x2}+{b}` when `x0` is not 1. */
  lemma ParseModernRoundTrip(xs: seq<nat>, b: nat)
    requires |xs| == 3 && xs[0] != 1
    ensures Parse(FormatModern(xs, b)) ==
      Ok(Modern(Num(xs[0]), Num(xs[1]), Num(xs[2]), Num(b)))
  {
    FormatModernIsModernForm(xs, b);
    ParseModernFields(xs, b);
  }

  /**
   * A short modern string such as `8.0` is not rejected: it parses with
   * NaN revision and build.
   */
  lemma ParseShortModern(xs: seq<nat>)
    requires |xs| == 2 && xs[0] != 1
    ensures Parse(Dotted(xs)) == Ok(Modern(Num(xs[0]), Num(xs[1]), NaN, NaN))
  {
    var s := Dotted(xs);
    HeadOfDotted(xs, []);
    assert s + [] == s;
    StringToNumberNatToString(xs[0]);
    DottedWithout(xs, '+');
    SplitWithoutSeparator(s, '+');
    SplitDotted(xs);
    ParseIntNatToString(xs[0]);
    ParseIntNatToString(xs[1]);
  }

  /** The documented legacy example `1.8.0_152-b16`. */
  lemma ParseLegacyExample()
    ensures Parse("1.8.0_152-b16") == Ok(Legacy(Num(8), Num(152), Num(16)))
  {
    assert FormatLegacy(8, 152, 16) == "1.8.0_152-b16" by {
      assert NatToString(152) == "152";
      assert NatToString(16) == "16";
      assert Dotted([1, 8, 0]) == "1.8.0";
    }
    ParseLegacyRoundTrip(8, 152, 16);
  }

  /** The documented modern example `10.0.2+13`. */
  lemma ParseModernExample()
    ensures Parse("10.0.2+13") == Ok(Modern(Num(10), Num(0), Num(2), Num(13)))
  {
    assert FormatModern([10, 0, 2], 13) == "10.0.2+13" by {
      assert NatToString(13) == "13";
      assert Dotted([10, 0, 2]) == "10.0.2";
    }
    ParseModernRoundTrip([10, 0, 2], 13);
  }
}
