/**
 * `JavaGuard.javaExecFromRoot` and `JavaGuard.isJavaExecPath`, with the
 * host platform taken as a parameter instead of `process.platform`.
 */
module JavaPaths {
  import opened JsRuntime

  /**
   * `process.platform`; every value other than the three supported ones
   * keeps its name. `Other` is meant to hold only a name other than
   * `win32`, `darwin` and `linux`, as `PlatformOf` builds it.
   */
  datatype Platform = Win32 | Darwin | Linux | Other(name: string)
  {
    predicate Supported() { !Other? }

    /** The separator `path.join` writes on this platform. */
    function Sep(): char { if Win32? then '\\' else '/' }

    /** The platform's name as `process.platform` spells it. */
    function Name(): string {
      match this
      case Win32 => "win32"
      case Darwin => "darwin"
      case Linux => "linux"
      case Other(n) => n
    }
  }

  /** The platform `process.platform` names. */
  function PlatformOf(name: string): (p: Platform)
    ensures p.Name() == name
    ensures p.Supported() <==> name == "win32" || name == "darwin" || name == "linux"
  {
    if name == "win32" then Win32
    else if name == "darwin" then Darwin
    else if name == "linux" then Linux
    else Other(name)
  }

  /** A platform is given back by its name unless it is an `Other` holding a supported name. */
  lemma PlatformOfName(p: Platform)
    ensures PlatformOf(p.Name()) == p <==> !(p.Other? && PlatformOf(p.name).Supported())
  {
  }

  /**
   * `path.join(root, ...segs)` for a root that needs no normalising: an
   * empty root contributes nothing, and a root that already ends in the
   * separator gets no second one.
   */
  function Join(root: string, segs: seq<string>, sep: char): (p: string)
    requires |segs| >= 1
    ensures EndsWith(p, JoinWith(segs, sep))
  {
    var tail := JoinWith(segs, sep);
    if root == [] then tail
    else if root[|root| - 1] == sep then root + tail
    else root + [sep] + tail
  }

  /** The segments below the root that lead to the executable on a supported platform. */
  function ExecSegments(p: Platform): seq<string>
    requires p.Supported()
  {
    match p
    case Win32 => ["bin", "javaw.exe"]
    case Darwin => ["Contents", "Home", "bin", "java"]
    case Linux => ["bin", "java"]
  }

  /** `javaExecFromRoot(rootDir)`; on an unsupported platform the root itself. */
  function ExecFromRoot(p: Platform, rootDir: string): string {
    if p.Supported() then Join(rootDir, ExecSegments(p), p.Sep()) else rootDir
  }

  /** The suffix `isJavaExecPath` looks for: `bin/javaw.exe` on Windows, `bin/java` elsewhere. */
  function ExecSuffix(p: Platform): string
    requires p.Supported()
  {
    JoinWith(if p.Win32? then ["bin", "javaw.exe"] else ["bin", "java"], p.Sep())
  }

  /** `isJavaExecPath(pth)`; `None` is `null`/`undefined`. */
  predicate IsJavaExecPath(p: Platform, pth: Option<string>) {
    pth.Some? && p.Supported() && EndsWith(pth.value, ExecSuffix(p))
  }

  // ---------------------------------------------------------------------

  /** The executable's segments end with the suffix the check looks for. */
  lemma ExecSegmentsEndWithSuffix(p: Platform)
    requires p.Supported()
    ensures EndsWith(JoinWith(ExecSegments(p), p.Sep()), ExecSuffix(p))
  {
    var sep := p.Sep();
    if p.Darwin? {
      var tail := JoinWith(["bin", "java"], sep);
      assert JoinWith(["Contents", "Home", "bin", "java"], sep) == "Contents" + [sep] + ("Home" + [sep] + tail);
    }
  }

  /** On a supported platform the path derived from any root passes the check. */
  lemma ExecFromRootIsExecPath(p: Platform, rootDir: string)
    requires p.Supported()
    ensures IsJavaExecPath(p, Some(ExecFromRoot(p, rootDir)))
  {
    ExecSegmentsEndWithSuffix(p);
    var path := ExecFromRoot(p, rootDir);
    var tail := JoinWith(ExecSegments(p), p.Sep());
    var suffix := ExecSuffix(p);
    assert EndsWith(path, tail);
    assert path[|path| - |suffix|..] == tail[|tail| - |suffix|..];
  }

  /** A missing path is never one, and on an unsupported platform no path is. */
  lemma IsJavaExecPathRejects(p: Platform, pth: Option<string>)
    ensures !IsJavaExecPath(p, None)
    ensures !p.Supported() ==> !IsJavaExecPath(p, pth)
  {
  }

  /**
   * Different roots give different executables, for roots that are not
   * empty and do not end in the separator: the root is the path minus its
   * fixed tail.
   */
  lemma ExecFromRootInjective(p: Platform, r1: string, r2: string)
    requires p.Supported()
    requires r1 != [] && r1[|r1| - 1] != p.Sep()
    requires r2 != [] && r2[|r2| - 1] != p.Sep()
    requires ExecFromRoot(p, r1) == ExecFromRoot(p, r2)
    ensures r1 == r2
  {
    var tail := [p.Sep()] + JoinWith(ExecSegments(p), p.Sep());
    assert ExecFromRoot(p, r1) == r1 + tail;
    assert ExecFromRoot(p, r2) == r2 + tail;
    assert r1 == (r1 + tail)[..|r1|];
    assert r2 == (r2 + tail)[..|r2|];
  }
}
