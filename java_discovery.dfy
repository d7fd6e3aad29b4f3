/**
 * Where `JavaGuard` looks for Java installations and how it validates one:
 * `_scanFileSystem`, `_scanRegistry`, `_scanJavaHome`,
 * `_scanInternetPlugins`, `_validateJavaBinary` and `_validateJavaRootSet`.
 *
 * The file system, the Windows registry, the environment, the drive list
 * and the spawned `java -XshowSettings:properties` are a `Host` value the
 * operations read.
 */
module JavaDiscovery {
  import opened JsRuntime
  import opened JsSet
  import opened JavaPaths
  import opened JvmProperties
  import opened JavaRanking

  /** One subkey under a registry key: its full key path and its `JavaHome` value. */
  datatype Subkey = Subkey(key: string, javaHome: string)

  /** A registry key as `keyExists` and `keys` report it. */
  datatype RegistryKey = Missing | Failed | Present(subkeys: seq<Subkey>)

  /** Everything the operations observe of the machine. */
  datatype Host = Host(
    platform: Platform,
    pathExists: string -> bool,           // fs.existsSync / fs.pathExists
    readDir: string -> seq<string>,    // fs.readdir of an existing directory
    stderrOf: string -> string,        // stderr of a spawned command line
    javaHome: Option<string>,          // process.env.JAVA_HOME
    registry: string -> RegistryKey,   // the 64-bit view of HKLM
    drives: seq<string>,               // mount points from nodeDiskInfo
    mcVersion: string)                 // the Minecraft version of the launch

  // ---------------------------------------------------------------------
  // _scanFileSystem

  /** The directory entries from the `i`-th on, each kept when its root holds an executable. */
  function ScanEntries(h: Host, scanDir: string, files: seq<string>, res: seq<string>): seq<string>
    decreases |files|
  {
    if files == [] then res
    else
      var combinedPath := Join(scanDir, [files[0]], h.platform.Sep());
      var res' := if h.pathExists(ExecFromRoot(h.platform, combinedPath)) then Add(res, combinedPath) else res;
      ScanEntries(h, scanDir, files[1..], res')
  }

  /** The roots `_scanFileSystem(scanDir)` finds. */
  function FileSystemRoots(h: Host, scanDir: string): seq<string> {
    if h.pathExists(scanDir) then ScanEntries(h, scanDir, h.readDir(scanDir), []) else []
  }

  /** `_scanFileSystem(scanDir)`: the loop over the directory's entries. */
  method ScanFileSystem(h: Host, scanDir: string) returns (res: seq<string>)
    ensures res == FileSystemRoots(h, scanDir)
  {
    res := [];
    if h.pathExists(scanDir) {
      var files := h.readDir(scanDir);
      for i := 0 to |files|
        invariant ScanEntries(h, scanDir, files[i..], res) == FileSystemRoots(h, scanDir)
      {
        assert files[i..][1..] == files[i + 1..];
        var combinedPath := Join(scanDir, [files[i]], h.platform.Sep());
        var execPath := ExecFromRoot(h.platform, combinedPath);
        if h.pathExists(execPath) {
          res := Add(res, combinedPath);
        }
      }
    }
  }

  /** `p` is one of the entries joined to the directory, and its root holds the executable. */
  predicate RootAmong(h: Host, scanDir: string, files: seq<string>, p: string) {
    h.pathExists(ExecFromRoot(h.platform, p)) && exists f :: f in files && p == Join(scanDir, [f], h.platform.Sep())
  }

  lemma {:induction false} ScanEntriesProps(h: Host, scanDir: string, files: seq<string>, res: seq<string>)
    requires NoDup(res)
    ensures NoDup(ScanEntries(h, scanDir, files, res))
    ensures forall p :: p in ScanEntries(h, scanDir, files, res) <==> p in res || RootAmong(h, scanDir, files, p)
    decreases |files|
  {
    if files != [] {
      var combinedPath := Join(scanDir, [files[0]], h.platform.Sep());
      var res' := if h.pathExists(ExecFromRoot(h.platform, combinedPath)) then Add(res, combinedPath) else res;
      ScanEntriesProps(h, scanDir, files[1..], res');
      assert files == [files[0]] + files[1..];
    }
  }

  /**
   * The roots found are distinct, and they are exactly the entries of an
   * existing directory, joined to it, whose root holds the executable.
   */
  lemma FileSystemRootsExactly(h: Host, scanDir: string)
    ensures NoDup(FileSystemRoots(h, scanDir))
    ensures forall p :: p in FileSystemRoots(h, scanDir) <==>
      h.pathExists(scanDir) && RootAmong(h, scanDir, h.readDir(scanDir), p)
  {
    if h.pathExists(scanDir) {
      ScanEntriesProps(h, scanDir, h.readDir(scanDir), []);
    }
  }

  // ---------------------------------------------------------------------
  // _scanRegistry

  /** The two registry keys of Java 1.8 and earlier, JRE first. */
  const RegKeys: seq<string> := [
    "\\SOFTWARE\\JavaSoft\\Java Runtime Environment",
    "\\SOFTWARE\\JavaSoft\\Java Development Kit"
  ]

  /** A subkey is read when the text after its last backslash reads as 1.8 with `parseFloat`. */
  predicate EligibleSubkey(sub: Subkey) {
    ParseFloatIsOnePointEight(AfterLast(sub.key, '\\'))
  }

  /**
   * A subkey named `1.8` or `1.8.0_321` (after its last backslash) is
   * eligible; one named `1.7...` is not.
   */
  lemma EligibleSubkeyNames(parent: string, rest: string, javaHome: string)
    requires '\\' !in rest
    requires EndsLiteral(rest)
    ensures EligibleSubkey(Subkey(parent + "\\" + "1.8" + rest, javaHome))
    ensures !EligibleSubkey(Subkey(parent + "\\" + "1.7" + rest, javaHome))
  {
    assert parent + "\\" + "1.8" + rest == parent + ['\\'] + ("1.8" + rest);
    AfterLastOf(parent, '\\', "1.8" + rest);
    ParseFloatOnePointEight(rest);
    assert parent + "\\" + "1.7" + rest == parent + ['\\'] + ("1.7" + rest);
    AfterLastOf(parent, '\\', "1.7" + rest);
    ParseFloatOnePointSeven(rest);
  }

  /** The `JavaHome` of an eligible subkey is kept unless it is a 32-bit `(x86)` path. */
  predicate KeptSubkey(sub: Subkey) {
    EligibleSubkey(sub) && !Contains(sub.javaHome, "(x86)")
  }

  /** The kept `JavaHome` values of a key's subkeys, in order. */
  function KeptHomes(subs: seq<Subkey>): seq<string> {
    if subs == [] then []
    else (if KeptSubkey(subs[0]) then [subs[0].javaHome] else []) + KeptHomes(subs[1..])
  }

  /** The subkeys of a key, or none when the key is missing or cannot be listed. */
  function SubkeysOf(h: Host, key: string): seq<Subkey> {
    match h.registry(key)
    case Present(subs) => subs
    case _ => []
  }

  /** The kept `JavaHome` values under the keys, key by key. */
  function RegistryHomes(h: Host, keys: seq<string>): seq<string> {
    if keys == [] then [] else KeptHomes(SubkeysOf(h, keys[0])) + RegistryHomes(h, keys[1..])
  }

  /**
   * `_scanRegistry()`: each kept `JavaHome` is added to the candidate set,
   * the callbacks taken one key and one subkey at a time.
   */
  function RegistryRoots(h: Host): seq<string> {
    FromSeq(RegistryHomes(h, RegKeys))
  }

  /** A subkey's home is in the list exactly when the subkey is there and kept. */
  predicate HomeOfKept(subs: seq<Subkey>, p: string) {
    exists sub :: sub in subs && KeptSubkey(sub) && sub.javaHome == p
  }

  lemma {:induction false} KeptHomesExactly(subs: seq<Subkey>)
    ensures forall p :: p in KeptHomes(subs) <==> HomeOfKept(subs, p)
  {
    if subs != [] {
      KeptHomesExactly(subs[1..]);
      var s0 := subs[0];
      assert subs == [s0] + subs[1..];
      forall p ensures p in KeptHomes(subs) <==> HomeOfKept(subs, p) {
        if HomeOfKept(subs, p) {
          var sub :| sub in subs && KeptSubkey(sub) && sub.javaHome == p;
          if sub != s0 {
            assert HomeOfKept(subs[1..], p);
          }
        }
        if p in KeptHomes(subs[1..]) {
          var sub :| sub in subs[1..] && KeptSubkey(sub) && sub.javaHome == p;
          assert sub in subs;
        }
      }
    }
  }

  /** A home under one of the keys. */
  predicate HomeUnderKeys(h: Host, keys: seq<string>, p: string) {
    exists k :: k in keys && HomeOfKept(SubkeysOf(h, k), p)
  }

  lemma {:induction false} RegistryHomesExactly(h: Host, keys: seq<string>)
    ensures forall p :: p in RegistryHomes(h, keys) <==> HomeUnderKeys(h, keys, p)
  {
    if keys != [] {
      RegistryHomesExactly(h, keys[1..]);
      KeptHomesExactly(SubkeysOf(h, keys[0]));
      assert keys == [keys[0]] + keys[1..];
      forall p ensures p in RegistryHomes(h, keys) <==> HomeUnderKeys(h, keys, p) {
        if HomeUnderKeys(h, keys, p) {
          var k :| k in keys && HomeOfKept(SubkeysOf(h, k), p);
          if k != keys[0] {
            assert HomeUnderKeys(h, keys[1..], p);
          }
        }
        if HomeUnderKeys(h, keys[1..], p) {
          var k :| k in keys[1..] && HomeOfKept(SubkeysOf(h, k), p);
          assert k in keys;
        }
      }
    }
  }

  /**
   * The registry roots are distinct, and they are exactly the `JavaHome`
   * values of kept subkeys of the two keys: eligible and not `(x86)` paths.
   */
  lemma RegistryRootsExactly(h: Host)
    ensures NoDup(RegistryRoots(h))
    ensures forall p :: p in RegistryRoots(h) <==> HomeUnderKeys(h, RegKeys, p)
    ensures forall p :: p in RegistryRoots(h) ==> !Contains(p, "(x86)")
  {
    FromSeqProps(RegistryHomes(h, RegKeys));
    RegistryHomesExactly(h, RegKeys);
    forall p | p in RegistryRoots(h) ensures !Contains(p, "(x86)") {
      var k :| k in RegKeys && HomeOfKept(SubkeysOf(h, k), p);
      var sub :| sub in SubkeysOf(h, k) && KeptSubkey(sub) && sub.javaHome == p;
    }
  }

  // ---------------------------------------------------------------------
  // _scanJavaHome, _scanInternetPlugins

  /** `_scanJavaHome()`: `JAVA_HOME` when it is set and exists. */
  function ScanJavaHome(h: Host): (r: Option<string>)
    ensures r.Some? <==> h.javaHome.Some? && h.pathExists(h.javaHome.value)
    ensures r.Some? ==> r == h.javaHome
  {
    if h.javaHome.Some? && h.pathExists(h.javaHome.value) then h.javaHome else None
  }

  const InternetPlugins: string := "/Library/Internet Plug-Ins/JavaAppletPlugin.plugin"

  /** `_scanInternetPlugins()`: the applet plugin's root when its executable exists. */
  function ScanInternetPlugins(h: Host): (r: Option<string>)
    ensures r.Some? <==> h.pathExists(ExecFromRoot(h.platform, InternetPlugins))
    ensures r.Some? ==> r.value == InternetPlugins
  {
    if h.pathExists(ExecFromRoot(h.platform, InternetPlugins)) then Some(InternetPlugins) else None
  }

  // ---------------------------------------------------------------------
  // _validateJavaBinary

  /** `{valid: false}` */
  const Invalid: JvmMeta := JvmMeta(None, None, None, false)

  /** The command line the binary is run with. */
  function Command(binaryExecPath: string): string {
    "\"" + binaryExecPath + "\" -XshowSettings:properties"
  }

  /**
   * `_validateJavaBinary(binaryExecPath)`. The `javaw.exe` to `java.exe`
   * rewrite discards its result, so the command runs the path as given. A
   * scan that throws is caught and answered with `{valid: false}`.
   */
  function ValidateJavaBinary(h: Host, binaryExecPath: string): JvmMeta {
    if !IsJavaExecPath(h.platform, Some(binaryExecPath)) then Invalid
    else if h.pathExists(binaryExecPath) then
      var stderr := h.stderrOf(Command(binaryExecPath));
      match ValidateJvm(stderr, h.mcVersion)
      case Err(_) => Invalid
      case Ok(meta) => meta
    else Invalid
  }

  /**
   * A binary is valid exactly when it is an executable path that exists
   * and the scan of its output succeeds and sets `valid`.
   */
  lemma ValidBinaryExactly(h: Host, binaryExecPath: string)
    ensures ValidateJavaBinary(h, binaryExecPath).valid <==>
      IsJavaExecPath(h.platform, Some(binaryExecPath)) && h.pathExists(binaryExecPath) &&
      ValidateJvm(h.stderrOf(Command(binaryExecPath)), h.mcVersion).Ok? &&
      ValidateJvm(h.stderrOf(Command(binaryExecPath)), h.mcVersion).value.valid
  {
  }

  /**
   * The `javaw.exe` workaround has no effect: the command names the path
   * unchanged, although the rewritten path would differ.
   */
  lemma JavawNotRewritten(binaryExecPath: string)
    requires Contains(binaryExecPath, "javaw.exe")
    ensures ReplaceFirst(binaryExecPath, "javaw.exe", "java.exe") != binaryExecPath
    ensures Command(binaryExecPath)[1..|binaryExecPath| + 1] == binaryExecPath
  {
    var i := IndexOf(binaryExecPath, "javaw.exe");
    var r := ReplaceFirst(binaryExecPath, "javaw.exe", "java.exe");
    assert |r| == |binaryExecPath| - 1;
  }

  // ---------------------------------------------------------------------
  // _validateJavaRootSet

  /** What one root contributes: its result when its binary is valid, else nothing. */
  function RootResults(h: Host, root: string): seq<JavaResult> {
    var execPath := ExecFromRoot(h.platform, root);
    var metaOb := ValidateJavaBinary(h, execPath);
    if metaOb.valid then [JavaResult(metaOb, execPath)] else []
  }

  /** The valid results for the roots, in their order, each with its `execPath`. */
  function ValidRoots(h: Host, roots: seq<string>): seq<JavaResult>
    decreases |roots|
  {
    if roots == [] then [] else RootResults(h, roots[0]) + ValidRoots(h, roots[1..])
  }

  /** The loop body of `_validateJavaRootSet` for one root. */
  method ValidateRoot(h: Host, root: string) returns (found: seq<JavaResult>)
    ensures found == RootResults(h, root)
  {
    var execPath := ExecFromRoot(h.platform, root);
    var metaOb := ValidateJavaBinary(h, execPath);
    found := [];
    if metaOb.valid {
      found := [JavaResult(metaOb, execPath)];
    }
  }

  /** `_validateJavaRootSet(rootSet)`: the loop that pushes the valid meta objects. */
  method ValidateJavaRootSet(h: Host, rootSet: seq<string>) returns (validArr: seq<JavaResult>)
    ensures validArr == ValidRoots(h, rootSet)
  {
    validArr := [];
    for i := 0 to |rootSet|
      invariant validArr + ValidRoots(h, rootSet[i..]) == ValidRoots(h, rootSet)
    {
      assert rootSet[i..][0] == rootSet[i] && rootSet[i..][1..] == rootSet[i + 1..];
      var found := ValidateRoot(h, rootSet[i]);
      validArr := validArr + found;
    }
    assert rootSet[|rootSet|..] == [];
  }

  /** `c` is the result root `r` contributes when its binary is valid. */
  predicate RootGives(h: Host, r: string, c: JavaResult) {
    c == JavaResult(ValidateJavaBinary(h, ExecFromRoot(h.platform, r)), ExecFromRoot(h.platform, r)) &&
    c.meta.valid
  }

  /** One root contributes at most its own valid result. */
  lemma RootResultsExactly(h: Host, r: string)
    ensures |RootResults(h, r)| <= 1
    ensures forall c :: c in RootResults(h, r) <==> RootGives(h, r, c)
  {
  }

  /**
   * The results are exactly the valid binaries of the roots, each tagged
   * with the executable derived from its root; no root gives more than one.
   */
  lemma {:induction false} ValidRootsExactly(h: Host, roots: seq<string>)
    ensures |ValidRoots(h, roots)| <= |roots|
    ensures forall c :: c in ValidRoots(h, roots) <==> exists r :: r in roots && RootGives(h, r, c)
    decreases |roots|
  {
    if roots != [] {
      var rest := roots[1..];
      ValidRootsExactly(h, rest);
      RootResultsExactly(h, roots[0]);
      assert ValidRoots(h, roots) == RootResults(h, roots[0]) + ValidRoots(h, rest);
      forall c ensures c in ValidRoots(h, roots) <==> exists r :: r in roots && RootGives(h, r, c) {
        if c in RootResults(h, roots[0]) {
          assert roots[0] in roots;
        } else if c in ValidRoots(h, rest) {
          var r :| r in rest && RootGives(h, r, c);
          assert r in roots;
        } else {
          forall r | r in roots ensures !RootGives(h, r, c) {
            if r != roots[0] {
              assert r in rest;
            }
          }
        }
      }
    }
  }
}
