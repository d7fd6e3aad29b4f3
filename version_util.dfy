/**
 * The version helpers of the launcher's `Util` class: a component-wise
 * "at least" test on dotted Minecraft versions, and two tests of a Forge
 * version against pinned thresholds.
 */
module VersionUtil {
  import opened JsRuntime

  // ---------------------------------------------------------------------
  // mcVersionAtLeast

  /** `parseInt(act[i]) >= parseInt(des[i])`, a missing component being NaN. */
  predicate ComponentAtLeast(des: seq<string>, act: seq<string>, i: nat) {
    Ge(ParseIntAt(act, i), ParseIntAt(des, i))
  }

  /** Every component of `desired` is matched by the same component of `actual`. */
  predicate VersionAtLeast(desired: string, actual: string) {
    var des := Split(desired, '.');
    var act := Split(actual, '.');
    forall i :: 0 <= i < |des| ==> ComponentAtLeast(des, act, i)
  }

  /** `Util.mcVersionAtLeast(desired, actual)`: the loop with its early return. */
  method McVersionAtLeast(desired: string, actual: string) returns (r: bool)
    ensures r == VersionAtLeast(desired, actual)
  {
    var des := Split(desired, '.');
    var act := Split(actual, '.');
    for i := 0 to |des|
      invariant forall j :: 0 <= j < i ==> ComponentAtLeast(des, act, j)
    {
      if !ComponentAtLeast(des, act, i) {
        return false;
      }
    }
    return true;
  }

  /** An `actual` with fewer components than `desired` is never at least it. */
  lemma TooFewComponents(desired: string, actual: string)
    requires |Split(actual, '.')| < |Split(desired, '.')|
    ensures !VersionAtLeast(desired, actual)
  {
    var des := Split(desired, '.');
    var act := Split(actual, '.');
    assert !ComponentAtLeast(des, act, |act|);
  }

  /** The decimal digits of each component. */
  function DecimalParts(xs: seq<nat>): (ps: seq<string>)
    ensures |ps| == |xs|
    ensures forall k :: 0 <= k < |xs| ==> ps[k] == NatToString(xs[k])
  {
    seq(|xs|, k requires 0 <= k < |xs| => NatToString(xs[k]))
  }

  /** A version written with decimal components separated by dots, like `1.16.5`. */
  function Dotted(xs: seq<nat>): string
    requires |xs| >= 1
  {
    JoinWith(DecimalParts(xs), '.')
  }

  /** Splitting a dotted version on `.` gives back its components' digits. */
  lemma SplitDotted(xs: seq<nat>)
    requires |xs| >= 1
    ensures Split(Dotted(xs), '.') == DecimalParts(xs)
  {
    var ps := DecimalParts(xs);
    forall k | 0 <= k < |ps| ensures '.' !in ps[k] {
      DigitsHaveNoSeparator(NatToString(xs[k]), '.');
    }
    SplitJoin(ps, '.');
  }

  /** A dotted version holds no character other than digits and dots. */
  lemma DottedWithout(xs: seq<nat>, c: char)
    requires |xs| >= 1 && c != '.' && !IsDigit(c)
    ensures c !in Dotted(xs)
  {
    var ps := DecimalParts(xs);
    forall k | 0 <= k < |ps| ensures c !in ps[k] {
      DigitsHaveNoSeparator(NatToString(xs[k]), c);
    }
    JoinWithout(ps, '.', c);
  }

  /**
   * The comparison is component by component, not lexicographic: `ys` is at
   * least `xs` exactly when it has as many components and each is at least
   * the matching one of `xs` (so `2.0` is not at least `1.17`).
   */
  lemma VersionAtLeastDotted(xs: seq<nat>, ys: seq<nat>)
    requires |xs| >= 1 && |ys| >= 1
    ensures VersionAtLeast(Dotted(xs), Dotted(ys)) <==>
      |xs| <= |ys| && forall i :: 0 <= i < |xs| ==> xs[i] <= ys[i]
  {
    var des := Split(Dotted(xs), '.');
    var act := Split(Dotted(ys), '.');
    SplitDotted(xs);
    SplitDotted(ys);
    forall i | 0 <= i < |xs|
      ensures ComponentAtLeast(des, act, i) <==> i < |ys| && xs[i] <= ys[i]
    {
      ParseIntNatToString(xs[i]);
      if i < |ys| {
        ParseIntNatToString(ys[i]);
      }
    }
    if |xs| > |ys| {
      assert !ComponentAtLeast(des, act, |ys|);
    }
  }

  /** `2.0` is not at least `1.17`. */
  lemma ComponentwiseNotLexicographic()
    ensures !VersionAtLeast(Dotted([1, 17]), Dotted([2, 0]))
  {
    VersionAtLeastDotted([1, 17], [2, 0]);
    assert [1, 17][1] > [2, 0][1];
  }

  /** `Number` of each component of a dotted version is its value. */
  lemma NumbersOfDotted(xs: seq<nat>)
    requires |xs| >= 1
    ensures NumbersOf(Split(Dotted(xs), '.')) == Nums(xs)
  {
    SplitDotted(xs);
    forall k | 0 <= k < |xs| ensures StringToNumber(NatToString(xs[k])) == Num(xs[k]) {
      StringToNumberNatToString(xs[k]);
    }
  }

  // ---------------------------------------------------------------------
  // Lexicographic tests against a pinned threshold

  /** Component `k` of a `map(v => Number(v))` result; past the end it is `undefined`. */
  function At(xs: seq<JsNum>, k: nat): JsNum {
    if k < |xs| then xs[k] else Undefined
  }

  /** `parts.map(v => Number(v))` */
  function NumbersOf(parts: seq<string>): (xs: seq<JsNum>)
    ensures |xs| == |parts|
    ensures forall k :: 0 <= k < |parts| ==> xs[k] == StringToNumber(parts[k])
  {
    seq(|parts|, k requires 0 <= k < |parts| => StringToNumber(parts[k]))
  }

  /** Component `k` is neither above nor below the bound (NaN and undefined never are). */
  predicate Undecided(xs: seq<JsNum>, bound: seq<int>, k: nat)
    requires k < |bound|
  {
    !Gt(At(xs, k), Num(bound[k])) && !Lt(At(xs, k), Num(bound[k]))
  }

  /** The first component that differs from the bound is above it. */
  predicate FirstDecidingAbove(xs: seq<JsNum>, bound: seq<int>) {
    exists k :: 0 <= k < |bound| && Gt(At(xs, k), Num(bound[k]))
      && forall j :: 0 <= j < k ==> Undecided(xs, bound, j)
  }

  /** The first component that differs from the bound is below it. */
  predicate FirstDecidingBelow(xs: seq<JsNum>, bound: seq<int>) {
    exists k :: 0 <= k < |bound| && Lt(At(xs, k), Num(bound[k]))
      && forall j :: 0 <= j < k ==> Undecided(xs, bound, j)
  }

  /** Lexicographic "strictly greater" on integer sequences of equal length. */
  predicate LexGreater(xs: seq<int>, ys: seq<int>)
    requires |xs| == |ys|
  {
    |xs| > 0 && (xs[0] > ys[0] || (xs[0] == ys[0] && LexGreater(xs[1..], ys[1..])))
  }

  function Nums(xs: seq<int>): (r: seq<JsNum>)
    ensures |r| == |xs| && forall k :: 0 <= k < |xs| ==> r[k] == Num(xs[k])
  {
    seq(|xs|, k requires 0 <= k < |xs| => Num(xs[k]))
  }

  lemma DecidingAboveUnfold(xs: seq<JsNum>, bound: seq<int>)
    requires |xs| == |bound| > 0
    ensures FirstDecidingAbove(xs, bound) <==>
      Gt(xs[0], Num(bound[0])) || (Undecided(xs, bound, 0) && FirstDecidingAbove(xs[1..], bound[1..]))
  {
    if FirstDecidingAbove(xs, bound) && !Gt(xs[0], Num(bound[0])) {
      var k :| 0 <= k < |bound| && Gt(At(xs, k), Num(bound[k]))
        && forall j :: 0 <= j < k ==> Undecided(xs, bound, j);
      assert Undecided(xs, bound, 0);
      assert Gt(At(xs[1..], k - 1), Num(bound[1..][k - 1]));
      forall j | 0 <= j < k - 1 ensures Undecided(xs[1..], bound[1..], j) {
        assert Undecided(xs, bound, j + 1);
      }
    }
    if Undecided(xs, bound, 0) && FirstDecidingAbove(xs[1..], bound[1..]) {
      var k :| 0 <= k < |bound| - 1 && Gt(At(xs[1..], k), Num(bound[1..][k]))
        && forall j :: 0 <= j < k ==> Undecided(xs[1..], bound[1..], j);
      assert Gt(At(xs, k + 1), Num(bound[k + 1]));
      forall j | 0 <= j < k + 1 ensures Undecided(xs, bound, j) {
        if j > 0 { assert Undecided(xs[1..], bound[1..], j - 1); }
      }
    }
    if Gt(xs[0], Num(bound[0])) {
      assert Gt(At(xs, 0), Num(bound[0]));
    }
  }

  /** On numeric components, "first deciding component is above" is lexicographic order. */
  lemma {:induction false} DecidingAboveIsLexGreater(xs: seq<int>, bound: seq<int>)
    requires |xs| == |bound|
    ensures FirstDecidingAbove(Nums(xs), bound) <==> LexGreater(xs, bound)
    decreases |xs|
  {
    if |xs| > 0 {
      DecidingAboveUnfold(Nums(xs), bound);
      assert Nums(xs)[1..] == Nums(xs[1..]);
      DecidingAboveIsLexGreater(xs[1..], bound[1..]);
    }
  }

  lemma DecidingBelowUnfold(xs: seq<JsNum>, bound: seq<int>)
    requires |xs| == |bound| > 0
    ensures FirstDecidingBelow(xs, bound) <==>
      Lt(xs[0], Num(bound[0])) || (Undecided(xs, bound, 0) && FirstDecidingBelow(xs[1..], bound[1..]))
  {
    if FirstDecidingBelow(xs, bound) && !Lt(xs[0], Num(bound[0])) {
      var k :| 0 <= k < |bound| && Lt(At(xs, k), Num(bound[k]))
        && forall j :: 0 <= j < k ==> Undecided(xs, bound, j);
      assert Undecided(xs, bound, 0);
      assert Lt(At(xs[1..], k - 1), Num(bound[1..][k - 1]));
      forall j | 0 <= j < k - 1 ensures Undecided(xs[1..], bound[1..], j) {
        assert Undecided(xs, bound, j + 1);
      }
    }
    if Undecided(xs, bound, 0) && FirstDecidingBelow(xs[1..], bound[1..]) {
      var k :| 0 <= k < |bound| - 1 && Lt(At(xs[1..], k), Num(bound[1..][k]))
        && forall j :: 0 <= j < k ==> Undecided(xs[1..], bound[1..], j);
      assert Lt(At(xs, k + 1), Num(bound[k + 1]));
      forall j | 0 <= j < k + 1 ensures Undecided(xs, bound, j) {
        if j > 0 { assert Undecided(xs[1..], bound[1..], j - 1); }
      }
    }
    if Lt(xs[0], Num(bound[0])) {
      assert Lt(At(xs, 0), Num(bound[0]));
    }
  }

  /** On numeric components, "first deciding component is below" is the reverse lexicographic order. */
  lemma {:induction false} DecidingBelowIsLexLess(xs: seq<int>, bound: seq<int>)
    requires |xs| == |bound|
    ensures FirstDecidingBelow(Nums(xs), bound) <==> LexGreater(bound, xs)
    decreases |xs|
  {
    if |xs| > 0 {
      DecidingBelowUnfold(Nums(xs), bound);
      assert Nums(xs)[1..] == Nums(xs[1..]);
      DecidingBelowIsLexLess(xs[1..], bound[1..]);
    }
  }

  /** At most one of the two "first deciding component" readings holds. */
  lemma DecidingExclusive(xs: seq<JsNum>, bound: seq<int>)
    ensures !(FirstDecidingAbove(xs, bound) && FirstDecidingBelow(xs, bound))
  {
    if FirstDecidingAbove(xs, bound) {
      var k :| 0 <= k < |bound| && Gt(At(xs, k), Num(bound[k]))
        && forall j :: 0 <= j < k ==> Undecided(xs, bound, j);
      forall m | 0 <= m < |bound| && Lt(At(xs, m), Num(bound[m]))
        ensures exists j :: 0 <= j < m && !Undecided(xs, bound, j)
      {
        assert !Undecided(xs, bound, m);
        assert 0 <= k < m && !Undecided(xs, bound, k);
      }
    }
  }

  /**
   * The loop shared by `isForgeGradle3` and `isAutoconnectBroken`: walk the
   * bound; the first component above it answers `above`, the first below it
   * answers `!above`; no deciding component answers `whenEqual`.
   */
  method CompareToBound(xs: seq<JsNum>, bound: seq<int>, above: bool, whenEqual: bool) returns (r: bool)
    ensures r == if FirstDecidingAbove(xs, bound) then above
                 else if FirstDecidingBelow(xs, bound) then !above
                 else whenEqual
  {
    for i := 0 to |bound|
      invariant forall j :: 0 <= j < i ==> Undecided(xs, bound, j)
    {
      if Gt(At(xs, i), Num(bound[i])) {
        assert !Undecided(xs, bound, i);
        forall k | 0 <= k < |bound| && Lt(At(xs, k), Num(bound[k]))
          ensures exists j :: 0 <= j < k && !Undecided(xs, bound, j)
        {
          assert !Undecided(xs, bound, k);
          assert 0 <= i < k && !Undecided(xs, bound, i);
        }
        return above;
      } else if Lt(At(xs, i), Num(bound[i])) {
        assert !Undecided(xs, bound, i);
        forall k | 0 <= k < |bound| && Gt(At(xs, k), Num(bound[k]))
          ensures exists j :: 0 <= j < k && !Undecided(xs, bound, j)
        {
          assert !Undecided(xs, bound, k);
          assert 0 <= i < k && !Undecided(xs, bound, i);
        }
        return !above;
      }
    }
    forall k | 0 <= k < |bound|
      ensures !Gt(At(xs, k), Num(bound[k])) && !Lt(At(xs, k), Num(bound[k]))
    {
      assert Undecided(xs, bound, k);
    }
    return whenEqual;
  }

  // ---------------------------------------------------------------------
  // isForgeGradle3

  /** The last Forge version built with ForgeGradle 2. */
  const MaxForgeGradle2: seq<int> := [14, 23, 5, 2847]

  /** The error `isForgeGradle3` rethrows when the Forge version has no `-`. */
  datatype ForgeError = ForgeVersionComplex

  /** Reference reading of `Util.isForgeGradle3(mcVersion, forgeVersion)`. */
  function ForgeGradle3(mcVersion: string, forgeVersion: string): Result<bool, ForgeError> {
    if VersionAtLeast("1.13", mcVersion) then Ok(true)
    else
      var parts := Split(forgeVersion, '-');
      if |parts| < 2 then Err(ForgeVersionComplex)
      else Ok(FirstDecidingAbove(NumbersOf(Split(parts[1], '.')), MaxForgeGradle2))
  }

  /** `Util.isForgeGradle3`: the part after the first `-` is compared with 14.23.5.2847. */
  method IsForgeGradle3(mcVersion: string, forgeVersion: string) returns (r: Result<bool, ForgeError>)
    ensures r == ForgeGradle3(mcVersion, forgeVersion)
  {
    var modern := McVersionAtLeast("1.13", mcVersion);
    if modern {
      return Ok(true);
    }
    var parts := Split(forgeVersion, '-');
    if |parts| < 2 {
      // `undefined.split('.')` throws; the catch rethrows a new Error.
      return Err(ForgeVersionComplex);
    }
    var verSplit := NumbersOf(Split(parts[1], '.'));
    var greater := CompareToBound(verSplit, MaxForgeGradle2, true, false);
    return Ok(greater);
  }

  /** A Minecraft version at least 1.13 always uses ForgeGradle 3. */
  lemma ForgeGradle3ForModernMinecraft(mcVersion: string, forgeVersion: string)
    requires VersionAtLeast("1.13", mcVersion)
    ensures ForgeGradle3(mcVersion, forgeVersion) == Ok(true)
  {
  }

  /**
   * Below Minecraft 1.13, a Forge version `<mc>-a.b.c.d` uses ForgeGradle 3
   * exactly when `[a, b, c, d]` is lexicographically above `[14, 23, 5, 2847]`.
   */
  lemma ForgeGradle3Lexicographic(mcVersion: string, mcPart: string, xs: seq<nat>)
    requires !VersionAtLeast("1.13", mcVersion)
    requires '-' !in mcPart && |xs| == 4
    ensures ForgeGradle3(mcVersion, mcPart + "-" + Dotted(xs)) == Ok(LexGreater(xs, MaxForgeGradle2))
  {
    var four := Dotted(xs);
    DottedWithout(xs, '-');
    assert mcPart + "-" + four == mcPart + ['-'] + four;
    SplitAtFirst(mcPart, '-', four);
    SplitWithoutSeparator(four, '-');
    NumbersOfDotted(xs);
    DecidingAboveIsLexGreater(xs, MaxForgeGradle2);
  }

  /** A dotted version written out: its first component, a dot and the rest. */
  lemma DottedCons(xs: seq<nat>, p: string, rest: string)
    requires |xs| >= 2 && NatToString(xs[0]) == p && Dotted(xs[1..]) == rest
    ensures Dotted(xs) == p + "." + rest
  {
    var ps := DecimalParts(xs);
    assert ps[1..] == DecimalParts(xs[1..]);
  }

  /** A dotted version of one component is its digits. */
  lemma DottedOne(xs: seq<nat>, p: string)
    requires |xs| == 1 && NatToString(xs[0]) == p
    ensures Dotted(xs) == p
  {
  }

  /** The digits of the two Forge builds either side of the threshold. */
  lemma DigitsOf2847()
    ensures NatToString(2847) == "2847" && NatToString(2848) == "2848"
  {
    assert NatToString(2) == "2";
    assert NatToString(28) == "28";
    assert NatToString(284) == "284";
  }

  /** The digits of the smaller components used below. */
  lemma DigitsOfSmall()
    ensures NatToString(1) == "1" && NatToString(2) == "2" && NatToString(5) == "5"
    ensures NatToString(12) == "12" && NatToString(13) == "13"
    ensures NatToString(14) == "14" && NatToString(23) == "23"
  {
  }

  /** Minecraft 1.12.2 and 1.13 as strings. */
  lemma MinecraftStrings()
    ensures Dotted([1, 13]) == "1.13" && Dotted([1, 12, 2]) == "1.12.2"
  {
    DigitsOfSmall();
    DottedOne([13], "13");
    DottedCons([1, 13], "1", "13");
    DottedOne([2], "2");
    DottedCons([12, 2], "12", "2");
    DottedCons([1, 12, 2], "1", "12.2");
  }

  /** `5.` followed by the digits of the last component. */
  lemma ThresholdTail(last: nat, digits: string)
    requires NatToString(last) == digits
    ensures Dotted([5, last]) == "5." + digits
  {
    var xs: seq<nat> := [5, last];
    assert xs[1..] == [last];
    DottedOne(xs[1..], digits);
    assert NatToString(5) == "5";
    DottedCons(xs, "5", digits);
  }

  /** `23.5.` followed by the digits of the last component. */
  lemma ThresholdMiddle(last: nat, digits: string)
    requires NatToString(last) == digits
    ensures Dotted([23, 5, last]) == "23.5." + digits
  {
    var xs: seq<nat> := [23, 5, last];
    assert xs[1..] == [5, last];
    ThresholdTail(last, digits);
    assert NatToString(23) == "23";
    DottedCons(xs, "23", "5." + digits);
  }

  /** `14.23.5.` followed by the digits of the last component. */
  lemma ThresholdStrings(last: nat, digits: string)
    requires NatToString(last) == digits
    ensures Dotted([14, 23, 5, last]) == "14.23.5." + digits
  {
    var xs: seq<nat> := [14, 23, 5, last];
    assert xs[1..] == [23, 5, last];
    ThresholdMiddle(last, digits);
    assert NatToString(14) == "14";
    DottedCons(xs, "14", "23.5." + digits);
  }

  /** Below Minecraft 1.13 the answer for a `1.12.2-14.23.5.<last>` Forge version is the lexicographic test. */
  lemma ForgeGradle3For1122(last: nat)
    ensures ForgeGradle3(Dotted([1, 12, 2]), Dotted([1, 12, 2]) + "-" + Dotted([14, 23, 5, last]))
         == Ok(LexGreater([14, 23, 5, last], MaxForgeGradle2))
  {
    VersionAtLeastDotted([1, 13], [1, 12, 2]);
    MinecraftStrings();
    DottedWithout([1, 12, 2], '-');
    ForgeGradle3Lexicographic(Dotted([1, 12, 2]), Dotted([1, 12, 2]), [14, 23, 5, last]);
  }

  /**
   * For Minecraft 1.12.2, Forge `1.12.2-14.23.5.2847` is still ForgeGradle 2
   * and the next build, `1.12.2-14.23.5.2848`, is the first on ForgeGradle 3.
   * The versions are written through `Dotted`; `MinecraftStrings` and
   * `ThresholdStrings` spell them out.
   */
  lemma ForgeGradle3AtThreshold()
    ensures ForgeGradle3(Dotted([1, 12, 2]), Dotted([1, 12, 2]) + "-" + Dotted([14, 23, 5, 2847])) == Ok(false)
    ensures ForgeGradle3(Dotted([1, 12, 2]), Dotted([1, 12, 2]) + "-" + Dotted([14, 23, 5, 2848])) == Ok(true)
  {
    ForgeGradle3For1122(2847);
    ForgeGradle3For1122(2848);
    assert MaxForgeGradle2[1..][1..][1..][1..] == [];
    assert [14, 23, 5, 2848][1..][1..][1..] == [2848];
  }

  // ---------------------------------------------------------------------
  // isAutoconnectBroken

  /** The first Forge 1.16.5 version whose autoconnect works. */
  const MinWorkingAutoconnect: seq<int> := [31, 2, 15]

  /** Reference reading of `Util.isAutoconnectBroken(forgeVersion)`. */
  predicate AutoconnectBroken(forgeVersion: string) {
    var xs := NumbersOf(Split(forgeVersion, '.'));
    StrictEq(At(xs, 0), Num(31)) && FirstDecidingBelow(xs, MinWorkingAutoconnect)
  }

  /** `Util.isAutoconnectBroken`: only a major of 31 is examined. */
  method IsAutoconnectBroken(forgeVersion: string) returns (r: bool)
    ensures r == AutoconnectBroken(forgeVersion)
  {
    var verSplit := NumbersOf(Split(forgeVersion, '.'));
    if StrictEq(At(verSplit, 0), Num(31)) {
      r := CompareToBound(verSplit, MinWorkingAutoconnect, false, false);
      DecidingExclusive(verSplit, MinWorkingAutoconnect);
      return;
    }
    return false;
  }

  /**
   * A numeric Forge version `a.b.c` has broken autoconnect exactly when its
   * major is 31 and it is lexicographically below 31.2.15.
   */
  lemma AutoconnectBrokenLexicographic(xs: seq<nat>)
    requires |xs| == 3
    ensures AutoconnectBroken(Dotted(xs)) <==> xs[0] == 31 && LexGreater(MinWorkingAutoconnect, xs)
  {
    NumbersOfDotted(xs);
    DecidingBelowIsLexLess(xs, MinWorkingAutoconnect);
  }
}
