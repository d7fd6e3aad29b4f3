/**
 * `JavaGuard._validateJVMProperties`: the output of
 * `java -XshowSettings:properties` is scanned line by line. A 64-bit
 * `sun.arch.data.model` line and a compatible `java.runtime.version` line
 * each add one to a checksum; the scan stops as soon as it reaches 2, and
 * the JVM is valid exactly when it did. A `java.vendor ` line only records
 * the vendor. Reading the value of a marked line without `=` throws.
 *
 * The model separates what one line does to the scan (`LineEffect`, decided
 * by the `if`/`else if` chain of the loop body) from the counter machine
 * that applies those effects and breaks at the goal (`Run`).
 */
module JvmProperties {
  import opened JsRuntime
  import opened VersionUtil
  import opened JavaVersion

  /** The number of hits that makes a JVM valid. */
  const Goal: nat := 2

  const ArchMarker: string := "sun.arch.data.model"
  const VersionMarker: string := "java.runtime.version"
  /** The trailing space keeps `java.vendor.url` and the like out. */
  const VendorMarker: string := "java.vendor "

  /** The meta object the scan returns; a field the scan never set is `None`. */
  datatype JvmMeta = JvmMeta(arch: Option<int>, version: Option<Version>, vendor: Option<string>, valid: bool)

  /** The scan's state: the checksum and the meta fields set so far. */
  datatype Scan = Scan(checksum: nat, arch: Option<int>, version: Option<Version>, vendor: Option<string>)

  const Start: Scan := Scan(0, None, None, None)

  // ---------------------------------------------------------------------
  // What one line does

  /** Which branch of the `if`/`else if` chain a line takes. */
  datatype LineKind = ArchLine | VersionLine | VendorLine | OtherLine

  function Kind(line: string): LineKind {
    if Contains(line, ArchMarker) then ArchLine
    else if Contains(line, VersionMarker) then VersionLine
    else if Contains(line, VendorMarker) then VendorLine
    else OtherLine
  }

  /** `line.split('=')[1].trim()`; without `=` the element is undefined and `trim` throws. */
  function PropertyValue(line: string): Result<string, TypeError> {
    var parts := Split(line, '=');
    if |parts| < 2 then Err(ReadOfUndefined) else Ok(Trim(parts[1]))
  }

  /**
   * The compatibility rule: below Minecraft 1.17 only Java 8 with an update
   * above 52 is accepted, from 1.17 on only Java 17 or later.
   */
  predicate Compatible(v: Version, mcAtLeast117: bool) {
    if Lt(v.major, Num(9)) then
      !mcAtLeast117 && StrictEq(v.major, Num(8)) && Gt(v.Update(), Num(52))
    else if Ge(v.major, Num(17)) then
      mcAtLeast117
    else
      false
  }

  /** The outcome of one line for the scan. */
  datatype Effect =
    | Throws(error: TypeError)   // the line's value could not be read or parsed
    | ArchHit                    // `meta.arch = 64` and one more hit
    | VersionHit(v: Version)     // `meta.version = verOb` and one more hit
    | VendorSeen(name: string)   // `meta.vendor = vendorName`
    | NoEffect

  predicate IsHit(e: Effect) { e.ArchHit? || e.VersionHit? }

  /** The architecture branch: `parseInt(arch) === 64`. */
  function ArchEffect(value: string): Effect {
    if StrictEq(ParseInt(value), Num(64)) then ArchHit else NoEffect
  }

  /** The version branch, given what `parseJavaRuntimeVersion` made of the value. */
  function VersionEffect(parsed: Result<Version, TypeError>, mcAtLeast117: bool): Effect {
    match parsed
    case Err(e) => Throws(e)
    case Ok(v) => if Compatible(v, mcAtLeast117) then VersionHit(v) else NoEffect
  }

  /** The loop body's `if`/`else if` chain for one line. */
  function LineEffect(line: string, mcAtLeast117: bool): Effect {
    var kind := Kind(line);
    if kind == OtherLine then NoEffect
    else
      match PropertyValue(line)
      case Err(e) => Throws(e)
      case Ok(value) =>
        if kind == ArchLine then ArchEffect(value)
        else if kind == VersionLine then VersionEffect(Parse(value), mcAtLeast117)
        else VendorSeen(value)
  }

  /** The effect of every line. */
  function Effects(lines: seq<string>, mcAtLeast117: bool): (effs: seq<Effect>)
    ensures |effs| == |lines|
    ensures forall k {:trigger LineEffect(lines[k], mcAtLeast117)} :: 0 <= k < |lines| ==> effs[k] == LineEffect(lines[k], mcAtLeast117)
  {
    seq(|lines|, k requires 0 <= k < |lines| => LineEffect(lines[k], mcAtLeast117))
  }

  // ---------------------------------------------------------------------
  // The counter machine

  /** A non-throwing effect applied to the state. */
  function Apply(st: Scan, e: Effect): Scan {
    match e
    case ArchHit => st.(arch := Some(64), checksum := st.checksum + 1)
    case VersionHit(v) => st.(version := Some(v), checksum := st.checksum + 1)
    case VendorSeen(name) => st.(vendor := Some(name))
    case _ => st
  }

  /** The loop from line `i` on: a throw ends it, and so does reaching the goal. */
  function Run(effs: seq<Effect>, i: nat, st: Scan): Result<Scan, TypeError>
    decreases |effs| - i
  {
    if i >= |effs| then Ok(st)
    else if effs[i].Throws? then Err(effs[i].error)
    else
      var next := Apply(st, effs[i]);
      if next.checksum == Goal then Ok(next) else Run(effs, i + 1, next)
  }

  function MetaOf(st: Scan): JvmMeta {
    JvmMeta(st.arch, st.version, st.vendor, st.checksum == Goal)
  }

  /** Reference reading of `_validateJVMProperties(stderr)` for the launcher's Minecraft version. */
  function ValidateJvm(stderr: string, mcVersion: string): Result<JvmMeta, TypeError> {
    match Run(Effects(Split(stderr, '\n'), VersionAtLeast("1.17", mcVersion)), 0, Start)
    case Err(e) => Err(e)
    case Ok(st) => Ok(MetaOf(st))
  }

  // ---------------------------------------------------------------------
  // The methods

  /** The version branch of the loop body, with its `mcVersionAtLeast` calls. */
  method VersionBranch(parsed: Result<Version, TypeError>, mcVersion: string) returns (e: Effect)
    ensures e == VersionEffect(parsed, VersionAtLeast("1.17", mcVersion))
  {
    if parsed.Err? {
      return Throws(parsed.error);
    }
    var verOb := parsed.value;
    if Lt(verOb.major, Num(9)) {
      var modern := McVersionAtLeast("1.17", mcVersion);
      if !modern && StrictEq(verOb.major, Num(8)) && Gt(verOb.Update(), Num(52)) {
        return VersionHit(verOb);
      }
    } else if Ge(verOb.major, Num(17)) {
      var modern := McVersionAtLeast("1.17", mcVersion);
      if modern {
        return VersionHit(verOb);
      }
    }
    return NoEffect;
  }

  /** The `if`/`else if` chain of the loop body for one line. */
  method ReadLine(lines: seq<string>, i: nat, mcVersion: string, ghost effs: seq<Effect>) returns (e: Effect)
    requires i < |lines| == |effs|
    requires forall k {:trigger LineEffect(lines[k], VersionAtLeast("1.17", mcVersion))} :: 0 <= k < |lines| ==> effs[k] == LineEffect(lines[k], VersionAtLeast("1.17", mcVersion))
    ensures e == effs[i]
  {
    var line := lines[i];
    assert effs[i] == LineEffect(line, VersionAtLeast("1.17", mcVersion));
    if Contains(line, ArchMarker) {
      var value := PropertyValue(line);
      if value.Err? {
        return Throws(value.error);
      }
      if StrictEq(ParseInt(value.value), Num(64)) {
        return ArchHit;
      }
      return NoEffect;
    } else if Contains(line, VersionMarker) {
      var value := PropertyValue(line);
      if value.Err? {
        return Throws(value.error);
      }
      var parsed := Parse(value.value);
      e := VersionBranch(parsed, mcVersion);
      return;
    } else if Contains(line, VendorMarker) {
      var value := PropertyValue(line);
      if value.Err? {
        return Throws(value.error);
      }
      return VendorSeen(value.value);
    } else {
      return NoEffect;
    }
  }

  /** The loop of `_validateJVMProperties` over the lines, with its checksum and early break. */
  method ScanLines(props: seq<string>, mcVersion: string, ghost effs: seq<Effect>) returns (r: Result<Scan, TypeError>)
    requires |props| == |effs|
    requires forall k {:trigger LineEffect(props[k], VersionAtLeast("1.17", mcVersion))} :: 0 <= k < |props| ==> effs[k] == LineEffect(props[k], VersionAtLeast("1.17", mcVersion))
    ensures r == Run(effs, 0, Start)
  {
    var checksum: nat := 0;
    var arch: Option<int> := None;
    var version: Option<Version> := None;
    var vendor: Option<string> := None;
    var i := 0;
    while i < |props|
      invariant 0 <= i <= |props| && checksum < Goal
      invariant Run(effs, 0, Start) == Run(effs, i, Scan(checksum, arch, version, vendor))
      decreases |props| - i
    {
      var e := ReadLine(props, i, mcVersion, effs);
      match e {
        case Throws(err) =>
          return Err(err);
        case ArchHit =>
          arch := Some(64);
          checksum := checksum + 1;
          if checksum == Goal {
            break;
          }
        case VersionHit(v) =>
          version := Some(v);
          checksum := checksum + 1;
          if checksum == Goal {
            break;
          }
        case VendorSeen(name) =>
          vendor := Some(name);
        case NoEffect =>
      }
      i := i + 1;
    }
    return Ok(Scan(checksum, arch, version, vendor));
  }

  /** `_validateJVMProperties(stderr)` */
  method ValidateJvmProperties(stderr: string, mcVersion: string) returns (r: Result<JvmMeta, TypeError>)
    ensures r == ValidateJvm(stderr, mcVersion)
  {
    var props := Split(stderr, '\n');
    ghost var effs := Effects(props, VersionAtLeast("1.17", mcVersion));
    var scan := ScanLines(props, mcVersion, effs);
    if scan.Err? {
      return Err(scan.error);
    }
    return Ok(MetaOf(scan.value));
  }

  // ---------------------------------------------------------------------
  // What the scan promises

  /** The number of hits among the effects. */
  function Hits(effs: seq<Effect>): nat {
    if effs == [] then 0 else (if IsHit(effs[0]) then 1 else 0) + Hits(effs[1..])
  }

  /** No effect from index `lo` up to `hi` throws. */
  predicate NoThrowIn(effs: seq<Effect>, lo: nat, hi: nat) {
    forall k :: lo <= k < hi && k < |effs| ==> !effs[k].Throws?
  }

  predicate NoThrow(effs: seq<Effect>) { NoThrowIn(effs, 0, |effs|) }

  /**
   * Without a throwing line the scan succeeds, its checksum never passes the
   * goal, and it reaches the goal exactly when there are enough hits.
   */
  lemma {:induction false} RunCounts(effs: seq<Effect>, i: nat, st: Scan)
    requires i <= |effs| && st.checksum < Goal && NoThrowIn(effs, i, |effs|)
    ensures Run(effs, i, st).Ok?
    ensures Run(effs, i, st).value.checksum <= Goal
    ensures Run(effs, i, st).value.checksum == Goal <==> st.checksum + Hits(effs[i..]) >= Goal
    decreases |effs| - i
  {
    if i < |effs| {
      assert effs[i..][0] == effs[i];
      assert effs[i..][1..] == effs[i + 1..];
      var next := Apply(st, effs[i]);
      if next.checksum < Goal {
        RunCounts(effs, i + 1, next);
      }
    }
  }

  /**
   * A throwing line reached before the goal ends the scan with its error:
   * nothing before it threw and it came while fewer than two hits were seen.
   */
  lemma {:induction false} RunThrows(effs: seq<Effect>, i: nat, st: Scan, j: nat)
    requires i <= j < |effs| && effs[j].Throws?
    requires NoThrowIn(effs, i, j) && st.checksum + Hits(effs[i..j]) < Goal
    ensures Run(effs, i, st) == Err(effs[j].error)
    decreases j - i
  {
    if i < j {
      assert effs[i..j][0] == effs[i];
      assert effs[i..j][1..] == effs[i + 1..j];
      var next := Apply(st, effs[i]);
      RunThrows(effs, i + 1, next, j);
    }
  }

  /** Once the goal is reached the loop breaks: whatever follows is never looked at. */
  lemma {:induction false} RunStopsAtGoal(effs: seq<Effect>, rest: seq<Effect>, i: nat, st: Scan)
    requires i <= |effs| && st.checksum < Goal
    requires Run(effs, i, st).Ok? && Run(effs, i, st).value.checksum == Goal
    ensures Run(effs + rest, i, st) == Run(effs, i, st)
    decreases |effs| - i
  {
    assert (effs + rest)[i] == effs[i];
    var next := Apply(st, effs[i]);
    if next.checksum != Goal {
      RunStopsAtGoal(effs, rest, i + 1, next);
    }
  }

  /** The effects of two runs of lines, one after the other. */
  lemma EffectsAppend(lines: seq<string>, more: seq<string>, mcAtLeast117: bool)
    ensures Effects(lines + more, mcAtLeast117) == Effects(lines, mcAtLeast117) + Effects(more, mcAtLeast117)
  {
    var l, m := Effects(lines, mcAtLeast117), Effects(more, mcAtLeast117);
    var lm := Effects(lines + more, mcAtLeast117);
    forall k | 0 <= k < |lm| ensures lm[k] == (l + m)[k] {
      if k < |lines| {
        assert (lines + more)[k] == lines[k];
      } else {
        assert (lines + more)[k] == more[k - |lines|];
      }
    }
  }

  /**
   * `valid` is set exactly when two hits are seen, provided no property
   * line throws.
   */
  lemma ValidIffTwoHits(stderr: string, mcVersion: string)
    requires NoThrow(Effects(Split(stderr, '\n'), VersionAtLeast("1.17", mcVersion)))
    ensures ValidateJvm(stderr, mcVersion).Ok?
    ensures ValidateJvm(stderr, mcVersion).value.valid <==>
      Hits(Effects(Split(stderr, '\n'), VersionAtLeast("1.17", mcVersion))) >= Goal
  {
    var effs := Effects(Split(stderr, '\n'), VersionAtLeast("1.17", mcVersion));
    assert effs[0..] == effs;
    RunCounts(effs, 0, Start);
  }

  /** The lines after the one that brings the checksum to two are never read, even ones that would throw. */
  lemma LinesAfterGoalIgnored(lines: seq<string>, more: seq<string>, mcAtLeast117: bool)
    requires Run(Effects(lines, mcAtLeast117), 0, Start).Ok?
    requires Run(Effects(lines, mcAtLeast117), 0, Start).value.checksum == Goal
    ensures Run(Effects(lines + more, mcAtLeast117), 0, Start) == Run(Effects(lines, mcAtLeast117), 0, Start)
  {
    EffectsAppend(lines, more, mcAtLeast117);
    RunStopsAtGoal(Effects(lines, mcAtLeast117), Effects(more, mcAtLeast117), 0, Start);
  }

  /**
   * Only a 64-bit architecture line or a compatible version line counts; a
   * vendor line, in particular, never does.
   */
  lemma LineHit(line: string, mcAtLeast117: bool)
    ensures IsHit(LineEffect(line, mcAtLeast117)) <==>
      PropertyValue(line).Ok? &&
      ((Kind(line) == ArchLine && ParseInt(PropertyValue(line).value) == Num(64)) ||
       (Kind(line) == VersionLine && Parse(PropertyValue(line).value).Ok? &&
        Compatible(Parse(PropertyValue(line).value).value, mcAtLeast117)))
    ensures Kind(line) == VendorLine ==> !IsHit(LineEffect(line, mcAtLeast117))
  {
  }

  /**
   * The compatibility rule in full: Java 8 with update above 52 before
   * Minecraft 1.17, Java 17 or later from 1.17 on. Majors 9 to 16 never pass.
   */
  lemma CompatibleExactly(v: Version, mcAtLeast117: bool)
    ensures Compatible(v, mcAtLeast117) <==>
      (!mcAtLeast117 && v.major == Num(8) && v.Update().Num? && v.Update().n > 52) ||
      (mcAtLeast117 && v.major.Num? && v.major.n >= 17)
    ensures v.major.Num? && 9 <= v.major.n <= 16 ==> !Compatible(v, mcAtLeast117)
  {
  }

  /** A legacy Java 8 string counts only before Minecraft 1.17 and only with update above 52; `1.8.0_40-b25` does not. */
  lemma LegacyEightHit(u: nat, b: nat, mcAtLeast117: bool)
    ensures IsHit(VersionEffect(Parse(FormatLegacy(8, u, b)), mcAtLeast117)) <==> !mcAtLeast117 && u > 52
  {
    ParseLegacyRoundTrip(8, u, b);
    EightHit(u, b, mcAtLeast117);
  }

  /** Java 8 counts only before Minecraft 1.17 and only with update above 52. */
  lemma EightHit(u: nat, b: nat, mcAtLeast117: bool)
    ensures IsHit(VersionEffect(Ok(Legacy(Num(8), Num(u), Num(b))), mcAtLeast117)) <==> !mcAtLeast117 && u > 52
  {
  }

  /** The version branch on a successful parse. */
  lemma ParsedHit(parsed: Result<Version, TypeError>, v: Version, mcAtLeast117: bool)
    requires parsed == Ok(v)
    ensures IsHit(VersionEffect(parsed, mcAtLeast117)) <==> Compatible(v, mcAtLeast117)
  {
  }

  /** `1.8.0_40-b25` is rejected for a Minecraft version below 1.17. */
  lemma UpdateFortyRejected()
    ensures !IsHit(VersionEffect(Parse("1.8.0_40-b25"), false))
  {
    assert FormatLegacy(8, 40, 25) == "1.8.0_40-b25" by {
      assert NatToString(40) == "40";
      assert NatToString(25) == "25";
      assert Dotted([1, 8, 0]) == "1.8.0";
    }
    LegacyEightHit(40, 25, false);
  }

  /**
   * A modern string counts only from Minecraft 1.17 on and only with major
   * 17 or more; a modern-grammar Java 8 has no update and never counts.
   */
  lemma ModernHit(xs: seq<nat>, b: nat, mcAtLeast117: bool)
    requires |xs| == 3 && xs[0] != 1
    ensures IsHit(VersionEffect(Parse(FormatModern(xs, b)), mcAtLeast117)) <==> mcAtLeast117 && xs[0] >= 17
  {
    ParseModernRoundTrip(xs, b);
    ParsedHit(Parse(FormatModern(xs, b)), Modern(Num(xs[0]), Num(xs[1]), Num(xs[2]), Num(b)), mcAtLeast117);
  }
}
