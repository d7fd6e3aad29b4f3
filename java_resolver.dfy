/**
 * The three platform resolvers `_win32JavaValidate`, `_darwinJavaValidate`
 * and `_linuxJavaValidate`, and the dispatch `validateJava`. Each gathers
 * candidate roots into a set, validates them, sorts the valid ones best
 * first and answers the first one's executable path, or `null`.
 */
module JavaResolver {
  import opened JsRuntime
  import opened JsSet
  import opened JavaPaths
  import opened JvmProperties
  import opened JavaRanking
  import opened JavaDiscovery

  // ---------------------------------------------------------------------
  // Picking the answer

  /**
   * Sort the valid results and answer the first `execPath`, or `None`
   * (`null`) when there is none. A sort that throws rejects the promise.
   */
  function PickBest(results: seq<JavaResult>): Result<Option<string>, TypeError> {
    match SortValidJavaArray(results)
    case Err(e) => Err(e)
    case Ok(sorted) => Ok(if |sorted| > 0 then Some(sorted[0].execPath) else None)
  }

  /**
   * The answer is `null` exactly when nothing is valid; otherwise it is the
   * path of a valid result that no other result outranks.
   */
  lemma PickBestCorrect(results: seq<JavaResult>)
    ensures PickBest(results).Err? <==>
      |results| >= 2 && exists c :: c in results && c.meta.version.None?
    ensures PickBest(results) == Ok(None) <==> results == []
    ensures PickBest(results).Ok? && PickBest(results).value.Some? ==>
      exists c :: c in results && c.execPath == PickBest(results).value.value &&
        forall d :: d in results ==> !Outranks(Key(d), Key(c))
  {
    SortValidJavaArrayCorrect(results);
    if results != [] && SortValidJavaArray(results).Ok? {
      SortedHeadIsBest(results);
      var best := SortByRank(results)[0];
      assert best in multiset(SortByRank(results));
    }
  }

  /**
   * At equal versions a JRE path is answered before a JDK path, whichever
   * order the two were found in, when every field the comparator reads is
   * a number (see `JavaRanking.CompareNaNFields` for GA versions).
   */
  lemma JrePreferred(jdk: JavaResult, jre: JavaResult)
    requires jdk.meta.version.Some? && jdk.meta.version == jre.meta.version
    requires Ranked(jdk)
    requires IsJdk(jdk.execPath) && !IsJdk(jre.execPath)
    ensures PickBest([jdk, jre]) == Ok(Some(jre.execPath))
    ensures PickBest([jre, jdk]) == Ok(Some(jre.execPath))
  {
    assert Outranks(Key(jre), Key(jdk));
    OutranksOrder(Key(jre), Key(jdk), Key(jdk));
    assert SortByRank([jre]) == [jre];
    assert SortByRank([jdk]) == [jdk];
    assert [jdk, jre][1..] == [jre];
    assert [jre, jdk][1..] == [jdk];
  }

  // ---------------------------------------------------------------------
  // The candidate sets

  /** `path.join(dataDir, 'runtime', 'x64')`, the launcher's own runtimes. */
  function RuntimeDir(h: Host, dataDir: string): string {
    Join(dataDir, ["runtime", "x64"], h.platform.Sep())
  }

  /** The four directories under each drive that the Windows scan looks in. */
  const ProgramFilesDirs: seq<string> := [
    "\\Program Files\\Java",
    "\\Program Files\\Eclipse Adoptium",
    "\\Program Files\\Eclipse Foundation",
    "\\Program Files\\AdoptOpenJDK"
  ]

  /** The roots found under one drive, directory by directory. */
  function MountRoots(h: Host, mount: string): seq<string> {
    FileSystemRoots(h, mount + ProgramFilesDirs[0]) + FileSystemRoots(h, mount + ProgramFilesDirs[1]) +
    FileSystemRoots(h, mount + ProgramFilesDirs[2]) + FileSystemRoots(h, mount + ProgramFilesDirs[3])
  }

  /** `pathSet1 = new Set([...pathSet1, ...])` for each drive in turn. */
  function DriveRoots(h: Host, mounts: seq<string>, pathSet1: seq<string>): seq<string>
    decreases |mounts|
  {
    if mounts == [] then pathSet1
    else DriveRoots(h, mounts[1..], FromSeq(pathSet1 + MountRoots(h, mounts[0])))
  }

  /**
   * The Windows candidates: the registry, or every drive when the registry
   * has nothing; then the runtime directory; then `JAVA_HOME` unless it is
   * an `(x86)` path.
   */
  function Win32Roots(h: Host, dataDir: string): seq<string> {
    var registry := RegistryRoots(h);
    var pathSet1 := if |registry| == 0 then DriveRoots(h, h.drives, registry) else registry;
    var uberSet := Union(pathSet1, FileSystemRoots(h, RuntimeDir(h, dataDir)));
    var jHome := ScanJavaHome(h);
    if jHome.Some? && !Contains(jHome.value, "(x86)") then Add(uberSet, jHome.value) else uberSet
  }

  const DarwinJvmDir: string := "/Library/Java/JavaVirtualMachines"
  const LinuxJvmDir: string := "/usr/lib/jvm"

  /** The macOS candidates before `JAVA_HOME`: the JVM directory, the runtime directory and the applet plugin. */
  function DarwinScanned(h: Host, dataDir: string): seq<string> {
    var uberSet := Union(FileSystemRoots(h, DarwinJvmDir), FileSystemRoots(h, RuntimeDir(h, dataDir)));
    var iPPath := ScanInternetPlugins(h);
    if iPPath.Some? then Add(uberSet, iPPath.value) else uberSet
  }

  /**
   * The macOS candidates as written: `jHome.contains(...)` calls a method
   * strings do not have, so a set and existing `JAVA_HOME` throws.
   */
  function DarwinRootsAsWritten(h: Host, dataDir: string): Result<seq<string>, TypeError> {
    var uberSet := DarwinScanned(h, dataDir);
    var jHome := ScanJavaHome(h);
    if jHome.Some? then Err(NotAFunction) else Ok(uberSet)
  }

  const ContentsHome: string := "/Contents/Home"

  /** The intended truncation: `JAVA_HOME` up to the first `/Contents/Home`. */
  function NormalizeDarwinJavaHome(jHome: string): string {
    if Contains(jHome, ContentsHome) then jHome[..IndexOf(jHome, ContentsHome)] else jHome
  }

  /** The macOS candidates as intended: `JAVA_HOME` is cut to the bundle root and added. */
  function DarwinRoots(h: Host, dataDir: string): seq<string> {
    var uberSet := DarwinScanned(h, dataDir);
    var jHome := ScanJavaHome(h);
    if jHome.Some? then Add(uberSet, NormalizeDarwinJavaHome(jHome.value)) else uberSet
  }

  /** The Linux candidates: the JVM directory, the runtime directory and `JAVA_HOME`. */
  function LinuxRoots(h: Host, dataDir: string): seq<string> {
    var uberSet := Union(FileSystemRoots(h, LinuxJvmDir), FileSystemRoots(h, RuntimeDir(h, dataDir)));
    var jHome := ScanJavaHome(h);
    if jHome.Some? then Add(uberSet, jHome.value) else uberSet
  }

  /** Validate the roots of a candidate set and pick the best. */
  function Resolve(h: Host, roots: seq<string>): Result<Option<string>, TypeError> {
    PickBest(ValidRoots(h, roots))
  }

  /**
   * `validateJava(dataDir)`: `this['_' + process.platform + 'JavaValidate']`;
   * no such method on other platforms. On macOS this dispatches to the
   * corrected resolver (`DarwinRoots`); `DarwinJavaValidateAsWritten` is the
   * resolver as written.
   */
  function ValidateJava(h: Host, dataDir: string): Result<Option<string>, TypeError> {
    match h.platform
    case Win32 => Resolve(h, Win32Roots(h, dataDir))
    case Darwin => Resolve(h, DarwinRoots(h, dataDir))
    case Linux => Resolve(h, LinuxRoots(h, dataDir))
    case Other(_) => Err(NotAFunction)
  }

  /**
   * `_darwinJavaValidate` as written: it throws whenever `JAVA_HOME` is set
   * and exists, and otherwise answers what the corrected resolver answers.
   */
  function DarwinJavaValidateAsWritten(h: Host, dataDir: string): (r: Result<Option<string>, TypeError>)
    ensures ScanJavaHome(h).Some? ==> r == Err(NotAFunction)
    ensures ScanJavaHome(h).None? ==> r == Resolve(h, DarwinRoots(h, dataDir))
  {
    match DarwinRootsAsWritten(h, dataDir)
    case Err(e) => Err(e)
    case Ok(roots) => Resolve(h, roots)
  }

  // ---------------------------------------------------------------------
  // The methods

  /** The four directory scans of one drive. */
  method ScanMount(h: Host, mount: string) returns (roots: seq<string>)
    ensures roots == MountRoots(h, mount)
  {
    var java := ScanFileSystem(h, mount + "\\Program Files\\Java");
    var adoptium := ScanFileSystem(h, mount + "\\Program Files\\Eclipse Adoptium");
    var foundation := ScanFileSystem(h, mount + "\\Program Files\\Eclipse Foundation");
    var adoptOpenJdk := ScanFileSystem(h, mount + "\\Program Files\\AdoptOpenJDK");
    roots := java + adoptium + foundation + adoptOpenJdk;
  }

  /** The loop of `_win32JavaValidate` over the drive mounts. */
  method ScanDrives(h: Host, registry: seq<string>) returns (pathSet1: seq<string>)
    ensures pathSet1 == DriveRoots(h, h.drives, registry)
  {
    pathSet1 := registry;
    var driveMounts := h.drives;
    for i := 0 to |driveMounts|
      invariant DriveRoots(h, driveMounts[i..], pathSet1) == DriveRoots(h, driveMounts, registry)
    {
      assert driveMounts[i..][1..] == driveMounts[i + 1..];
      var found := ScanMount(h, driveMounts[i]);
      pathSet1 := FromSeq(pathSet1 + found);
    }
    assert driveMounts[|driveMounts|..] == [];
  }

  /** `_win32JavaValidate(dataDir)` */
  method Win32JavaValidate(h: Host, dataDir: string) returns (r: Result<Option<string>, TypeError>)
    ensures r == Resolve(h, Win32Roots(h, dataDir))
  {
    var pathSet1 := RegistryRoots(h);
    if |pathSet1| == 0 {
      pathSet1 := ScanDrives(h, pathSet1);
    }
    var pathSet2 := ScanFileSystem(h, RuntimeDir(h, dataDir));
    var uberSet := Union(pathSet1, pathSet2);
    var jHome := ScanJavaHome(h);
    if jHome != None && IndexOf(jHome.value, "(x86)") == -1 {
      uberSet := Add(uberSet, jHome.value);
    }
    var pathArr := ValidateJavaRootSet(h, uberSet);
    r := PickBest(pathArr);
  }

  /** `_darwinJavaValidate(dataDir)` with the intended `JAVA_HOME` truncation. */
  method DarwinJavaValidate(h: Host, dataDir: string) returns (r: Result<Option<string>, TypeError>)
    ensures r == Resolve(h, DarwinRoots(h, dataDir))
  {
    var pathSet1 := ScanFileSystem(h, DarwinJvmDir);
    var pathSet2 := ScanFileSystem(h, RuntimeDir(h, dataDir));
    var uberSet := Union(pathSet1, pathSet2);
    var iPPath := ScanInternetPlugins(h);
    if iPPath != None {
      uberSet := Add(uberSet, iPPath.value);
    }
    var jHome := ScanJavaHome(h);
    if jHome != None {
      var root := jHome.value;
      if Contains(root, ContentsHome) {
        root := root[..IndexOf(root, ContentsHome)];
      }
      uberSet := Add(uberSet, root);
    }
    var pathArr := ValidateJavaRootSet(h, uberSet);
    r := PickBest(pathArr);
  }

  /** `_linuxJavaValidate(dataDir)` */
  method LinuxJavaValidate(h: Host, dataDir: string) returns (r: Result<Option<string>, TypeError>)
    ensures r == Resolve(h, LinuxRoots(h, dataDir))
  {
    var pathSet1 := ScanFileSystem(h, LinuxJvmDir);
    var pathSet2 := ScanFileSystem(h, RuntimeDir(h, dataDir));
    var uberSet := Union(pathSet1, pathSet2);
    var jHome := ScanJavaHome(h);
    if jHome != None {
      uberSet := Add(uberSet, jHome.value);
    }
    var pathArr := ValidateJavaRootSet(h, uberSet);
    r := PickBest(pathArr);
  }

  // ---------------------------------------------------------------------
  // What the resolvers promise

  lemma {:induction false} DriveRootsNoDup(h: Host, mounts: seq<string>, pathSet1: seq<string>)
    requires NoDup(pathSet1)
    ensures NoDup(DriveRoots(h, mounts, pathSet1))
    ensures forall p :: p in pathSet1 ==> p in DriveRoots(h, mounts, pathSet1)
    decreases |mounts|
  {
    if mounts != [] {
      var next := FromSeq(pathSet1 + MountRoots(h, mounts[0]));
      FromSeqProps(pathSet1 + MountRoots(h, mounts[0]));
      DriveRootsNoDup(h, mounts[1..], next);
    }
  }

  /** Every candidate set is a set: each distinct root is validated once. */
  lemma Win32RootsDistinct(h: Host, dataDir: string)
    ensures NoDup(Win32Roots(h, dataDir))
  {
    RegistryRootsExactly(h);
    DriveRootsNoDup(h, h.drives, RegistryRoots(h));
    UnionProps(if |RegistryRoots(h)| == 0 then DriveRoots(h, h.drives, RegistryRoots(h)) else RegistryRoots(h),
      FileSystemRoots(h, RuntimeDir(h, dataDir)));
  }

  lemma DarwinRootsDistinct(h: Host, dataDir: string)
    ensures NoDup(DarwinRoots(h, dataDir))
  {
    var a := FileSystemRoots(h, DarwinJvmDir);
    var b := FileSystemRoots(h, RuntimeDir(h, dataDir));
    UnionProps(a, b);
    var scanned := DarwinScanned(h, dataDir);
    assert NoDup(scanned);
  }

  lemma LinuxRootsDistinct(h: Host, dataDir: string)
    ensures NoDup(LinuxRoots(h, dataDir))
  {
    UnionProps(FileSystemRoots(h, LinuxJvmDir), FileSystemRoots(h, RuntimeDir(h, dataDir)));
  }

  /** The registry scan reads only the registry. */
  lemma {:induction false} RegistryHomesFrame(h: Host, h': Host, keys: seq<string>)
    requires h'.registry == h.registry
    ensures RegistryHomes(h', keys) == RegistryHomes(h, keys)
    decreases |keys|
  {
    if keys != [] {
      RegistryHomesFrame(h, h', keys[1..]);
    }
  }

  /** The directory scan reads only the platform and the file system. */
  lemma {:induction false} ScanEntriesFrame(h: Host, h': Host, scanDir: string, files: seq<string>, res: seq<string>)
    requires h'.platform == h.platform && h'.pathExists == h.pathExists
    ensures ScanEntries(h', scanDir, files, res) == ScanEntries(h, scanDir, files, res)
    decreases |files|
  {
    if files != [] {
      var combinedPath := Join(scanDir, [files[0]], h.platform.Sep());
      var res' := if h.pathExists(ExecFromRoot(h.platform, combinedPath)) then Add(res, combinedPath) else res;
      ScanEntriesFrame(h, h', scanDir, files[1..], res');
    }
  }

  /**
   * The drives are scanned only when the registry has no candidate: with
   * one, any other drive list gives the same candidates.
   */
  lemma DrivesIgnoredWithRegistry(h: Host, dataDir: string, drives: seq<string>)
    requires |RegistryRoots(h)| > 0
    ensures Win32Roots(h.(drives := drives), dataDir) == Win32Roots(h, dataDir)
  {
    var h' := h.(drives := drives);
    RegistryHomesFrame(h, h', RegKeys);
    var dir := RuntimeDir(h, dataDir);
    if h.pathExists(dir) {
      ScanEntriesFrame(h, h', dir, h.readDir(dir), []);
    }
  }

  /** A `JAVA_HOME` with `(x86)` in it is not added on Windows. */
  lemma X86JavaHomeSkipped(h: Host, dataDir: string)
    requires h.javaHome.Some? && Contains(h.javaHome.value, "(x86)")
    ensures h.javaHome.value in Win32Roots(h, dataDir) ==>
      h.javaHome.value in (if |RegistryRoots(h)| == 0 then DriveRoots(h, h.drives, RegistryRoots(h)) else RegistryRoots(h)) ||
      h.javaHome.value in FileSystemRoots(h, RuntimeDir(h, dataDir))
  {
    UnionProps(if |RegistryRoots(h)| == 0 then DriveRoots(h, h.drives, RegistryRoots(h)) else RegistryRoots(h),
      FileSystemRoots(h, RuntimeDir(h, dataDir)));
  }

  /** On Linux the candidates are the two scans and an existing `JAVA_HOME`, nothing else. */
  lemma LinuxRootsExactly(h: Host, dataDir: string)
    ensures forall p :: p in LinuxRoots(h, dataDir) <==>
      p in FileSystemRoots(h, LinuxJvmDir) || p in FileSystemRoots(h, RuntimeDir(h, dataDir)) ||
      ScanJavaHome(h) == Some(p)
  {
    UnionProps(FileSystemRoots(h, LinuxJvmDir), FileSystemRoots(h, RuntimeDir(h, dataDir)));
  }

  /** As written, the macOS resolver throws whenever `JAVA_HOME` is set and exists. */
  lemma DarwinAsWrittenThrows(h: Host, dataDir: string)
    ensures DarwinJavaValidateAsWritten(h, dataDir).Err? <==>
      ScanJavaHome(h).Some? || Resolve(h, DarwinScanned(h, dataDir)).Err?
    ensures ScanJavaHome(h).Some? ==> DarwinJavaValidateAsWritten(h, dataDir) == Err(NotAFunction)
  {
  }

  /** The truncated `JAVA_HOME` holds no `/Contents/Home`. */
  lemma NormalizedHasNoContentsHome(jHome: string)
    ensures !Contains(NormalizeDarwinJavaHome(jHome), ContentsHome)
  {
    var r := NormalizeDarwinJavaHome(jHome);
    if Contains(jHome, ContentsHome) {
      var i := IndexOf(jHome, ContentsHome);
      assert r == jHome[..i];
      forall k | 0 <= k <= |r| ensures !OccursAt(r, ContentsHome, k) {
        if k + |ContentsHome| <= |r| {
          assert !OccursAt(jHome, ContentsHome, k);
          assert jHome[..i][k..k + |ContentsHome|] == jHome[k..k + |ContentsHome|];
        }
      }
    }
  }

  /**
   * A `JAVA_HOME` that points inside a bundle, `{root}/Contents/Home`, is
   * cut back to the bundle root, from which the executable is derived again.
   */
  lemma NormalizeBundleHome(root: string)
    requires !Contains(root, ContentsHome)
    ensures NormalizeDarwinJavaHome(root + ContentsHome) == root
    ensures NormalizeDarwinJavaHome(root) == root
  {
    var s := root + ContentsHome;
    var n := |root|;
    assert s[n..] == ContentsHome;
    assert OccursAt(s, ContentsHome, n);
    // No earlier occurrence: one inside `root` is excluded, and one that
    // overlaps the appended text would need `/Contents/Home` to begin
    // with one of its own proper suffixes.
    forall k | 0 <= k < n ensures !OccursAt(s, ContentsHome, k) {
      if k + |ContentsHome| <= n {
        assert !OccursAt(root, ContentsHome, k);
        assert s[k..k + |ContentsHome|] == root[k..k + |ContentsHome|];
      } else {
        var j := n - k;
        assert 0 < j < |ContentsHome| == 14;
        if k + |ContentsHome| <= |s| {
          var w := s[k..k + |ContentsHome|];
          if j != 9 {
            assert w[j] == s[n] == '/' && ContentsHome[j] != '/';
          } else {
            assert w[10] == s[n + 1] == 'C' && ContentsHome[10] == 'H';
          }
        }
      }
    }
    assert IndexOf(s, ContentsHome) == n;
    assert s[..n] == root;
  }

  /**
   * Whatever the resolver answers is an executable path on this platform,
   * derived from a candidate root, whose binary validated.
   */
  lemma AnswerIsValidExecutable(h: Host, dataDir: string)
    requires ValidateJava(h, dataDir).Ok? && ValidateJava(h, dataDir).value.Some?
    ensures IsJavaExecPath(h.platform, ValidateJava(h, dataDir).value)
    ensures ValidateJavaBinary(h, ValidateJava(h, dataDir).value.value).valid
  {
    var roots := match h.platform
      case Win32 => Win32Roots(h, dataDir)
      case Darwin => DarwinRoots(h, dataDir)
      case Linux => LinuxRoots(h, dataDir)
      case Other(_) => [];
    var p := ValidateJava(h, dataDir).value.value;
    PickBestCorrect(ValidRoots(h, roots));
    ValidRootsExactly(h, roots);
    var c :| c in ValidRoots(h, roots) && c.execPath == p;
    var root :| root in roots && RootGives(h, root, c);
    ExecFromRootIsExecPath(h.platform, root);
  }

  /** There is no resolver for any other platform. */
  lemma UnsupportedPlatform(h: Host, dataDir: string)
    requires !h.platform.Supported()
    ensures ValidateJava(h, dataDir) == Err(NotAFunction)
  {
  }
}
